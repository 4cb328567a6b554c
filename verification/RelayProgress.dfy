/** Progress of one relay: how many rounds an entry can take, how long it can wait for its first one,
    and when the outbox is empty.  Rows may be added at any time and any status write may be lost. */
module RelayProgress {
  import opened Wrappers
  import R = Retry
  import T = Topics
  import opened Outbox
  import opened Sequences

  /** A poll: the clock and the answer of its query, the entry at which the context ends or the relay
      dies, what happens to each entry, and the rows that writers add before the next poll.  A relay
      that dies between a round and its status write has lost that write. */
  datatype Poll = Poll(now: int, topics: map<string, T.Meta>, batch: seq<Row>, cancelAt: nat, inputs: nat -> Input, added: Rows)

  /** The entries the poll gets to. */
  function Taken(p: Poll): seq<Row> {
    if p.cancelAt < |p.batch| then p.batch[..p.cancelAt] else p.batch
  }

  predicate Whole(p: Poll) {
    p.cancelAt >= |p.batch|
  }

  /** How many of the first n polls were not cut short. */
  function WholePolls(polls: seq<Poll>, n: nat): nat
    requires n <= |polls|
  {
    if n == 0 then 0 else WholePolls(polls, n - 1) + if Whole(polls[n - 1]) then 1 else 0
  }

  /** Holds in every reachable state. */
  ghost predicate Sound(rows: Rows) {
    && Keyed(rows)
    && forall id :: id in rows && rows[id].status == Pending ==> rows[id].retryCount < MAX_ROUNDS
  }

  ghost predicate IsPoll(rows: Rows, p: Poll, limit: nat, rows': Rows) {
    && IsBatch(rows, p.now, limit, p.batch)
    && Sound(p.added) && p.added.Keys !! rows.Keys
    && rows' == HandleAll(rows, p.topics, Taken(p), p.inputs) + p.added
  }

  ghost predicate IsPolling(tables: seq<Rows>, polls: seq<Poll>, limit: nat) {
    && |tables| == |polls| + 1
    && Sound(tables[0])
    && (forall i: nat :: i < |polls| ==> IsPoll(tables[i], polls[i], limit, tables[i + 1]))
    && (forall i: nat, j: nat :: i <= j < |polls| ==> polls[i].now <= polls[j].now)
  }

  predicate Handles(p: Poll, id: nat) {
    exists k :: 0 <= k < |Taken(p)| && Taken(p)[k].id == id
  }

  // ---------- what a batch changes ----------

  /** The entries of a batch, as the database still has them. */
  ghost predicate Held(rows: Rows, batch: seq<Row>) {
    && (forall i, j :: 0 <= i < j < |batch| ==> batch[i].id < batch[j].id)
    && (forall i :: 0 <= i < |batch| ==>
          && batch[i].id in rows && rows[batch[i].id] == batch[i]
          && batch[i].status == Pending && batch[i].retryCount < MAX_ROUNDS)
  }

  function HandledRow(topics: map<string, T.Meta>, entry: Row, input: Input): Row {
    if !input.writeUp then entry
    else
      match RunRound(topics, entry, input.env, input.now).verdict
      case MarkPublished => entry.(status := Published)
      case MarkFailed => entry.(status := Failed)
      case Reschedule(count, at) => entry.(retryCount := count, nextRetryAt := Some(at))
  }

  lemma OneEffect(rows: Rows, topics: map<string, T.Meta>, entry: Row, input: Input)
    requires entry.id in rows && rows[entry.id] == entry
    ensures HandleOne(rows, topics, entry, input) == rows[entry.id := HandledRow(topics, entry, input)]
  {
    hide RunRound;
  }

  lemma {:induction false} BatchKeys(rows: Rows, topics: map<string, T.Meta>, batch: seq<Row>, inputs: nat -> Input)
    ensures HandleAll(rows, topics, batch, inputs).Keys == rows.Keys
  {
    hide RunRound;
    if batch != [] {
      BatchKeys(rows, topics, batch[..|batch| - 1], inputs);
    }
  }

  /** A row without an entry in the batch stays. */
  lemma {:induction false} OtherRow(rows: Rows, topics: map<string, T.Meta>, batch: seq<Row>, inputs: nat -> Input, id: nat)
    requires id in rows && forall k :: 0 <= k < |batch| ==> batch[k].id != id
    ensures id in HandleAll(rows, topics, batch, inputs) && HandleAll(rows, topics, batch, inputs)[id] == rows[id]
  {
    hide RunRound;
    if batch != [] {
      OtherRow(rows, topics, batch[..|batch| - 1], inputs, id);
    }
  }

  /** A row with an entry in the batch changes by that entry's round. */
  lemma {:induction false} EntryRow(rows: Rows, topics: map<string, T.Meta>, batch: seq<Row>, inputs: nat -> Input, k: nat)
    requires Held(rows, batch) && k < |batch|
    ensures batch[k].id in HandleAll(rows, topics, batch, inputs)
    ensures HandleAll(rows, topics, batch, inputs)[batch[k].id] == HandledRow(topics, batch[k], inputs(k))
  {
    var n := |batch| - 1;
    var first := batch[..n];
    if k == n {
      OtherRow(rows, topics, first, inputs, batch[n].id);
      OneEffect(HandleAll(rows, topics, first, inputs), topics, batch[n], inputs(n));
    } else {
      EntryRow(rows, topics, first, inputs, k);
      OtherRow1(HandleAll(rows, topics, first, inputs), topics, batch[n], inputs(n), batch[k].id);
    }
  }

  lemma OtherRow1(rows: Rows, topics: map<string, T.Meta>, entry: Row, input: Input, id: nat)
    requires id in rows && entry.id != id
    ensures id in HandleOne(rows, topics, entry, input) && HandleOne(rows, topics, entry, input)[id] == rows[id]
  {
    hide RunRound;
  }

  // ---------- credit ----------

  /** The rounds a row may still take before it is given up. */
  function Credit(row: Row): nat {
    if row.status == Pending && row.retryCount < MAX_ROUNDS then MAX_ROUNDS - row.retryCount else 0
  }

  /** The credit of the rows with ids from lo up to hi, exclusive. */
  function Credits(rows: Rows, lo: nat, hi: nat): nat
    decreases hi
  {
    if hi <= lo then 0
    else Credits(rows, lo, hi - 1) + if hi - 1 in rows then Credit(rows[hi - 1]) else 0
  }

  lemma {:induction false} CreditsUpdate(rows: Rows, id: nat, row: Row, lo: nat, hi: nat)
    requires id in rows
    ensures var more := if lo <= id < hi then Credit(row) - Credit(rows[id]) else 0;
            Credits(rows[id := row], lo, hi) == Credits(rows, lo, hi) + more
    decreases hi
  {
    if lo < hi {
      CreditsUpdate(rows, id, row, lo, hi - 1);
    }
  }

  lemma {:induction false} CreditsSame(rows: Rows, rows': Rows, lo: nat, hi: nat)
    requires forall id :: lo <= id < hi ==> (id in rows <==> id in rows') && (id in rows ==> rows[id] == rows'[id])
    ensures Credits(rows, lo, hi) == Credits(rows', lo, hi)
    decreases hi
  {
    if lo < hi {
      CreditsSame(rows, rows', lo, hi - 1);
    }
  }

  /** A round that is written down uses up credit. */
  lemma RoundSpends(topics: map<string, T.Meta>, entry: Row, input: Input)
    requires entry.status == Pending && entry.retryCount < MAX_ROUNDS
    ensures input.writeUp ==> Credit(HandledRow(topics, entry, input)) < Credit(entry)
    ensures !input.writeUp ==> HandledRow(topics, entry, input) == entry
    ensures RunRound(topics, entry, input.env, input.now).calls <= 4
  {
    RoundOutcome(topics, entry, input.env, input.now);
    hide RunRound;
  }

  /** The rounds of the entries with ids in an interval: how many, how many of them ended in an error,
      how many status writes were lost, and how often Publish was called. */
  datatype Tally = Tally(rounds: nat, errors: nat, lost: nat, calls: nat)

  function Plus(a: Tally, b: Tally): Tally {
    Tally(a.rounds + b.rounds, a.errors + b.errors, a.lost + b.lost, a.calls + b.calls)
  }

  lemma Outside(topics: map<string, T.Meta>, entry: Row, input: Input, lo: nat, hi: nat)
    requires !(lo <= entry.id < hi)
    ensures TallyOne(topics, entry, input, lo, hi) == Tally(0, 0, 0, 0)
  {
  }

  function TallyOne(topics: map<string, T.Meta>, entry: Row, input: Input, lo: nat, hi: nat): Tally {
    if lo <= entry.id < hi then
      var r := RunRound(topics, entry, input.env, input.now);
      Tally(1, if r.err.Some? then 1 else 0, if input.writeUp then 0 else 1, r.calls)
    else Tally(0, 0, 0, 0)
  }

  function TallyBatch(topics: map<string, T.Meta>, batch: seq<Row>, inputs: nat -> Input, lo: nat, hi: nat): Tally {
    if batch == [] then Tally(0, 0, 0, 0)
    else
      var n := |batch| - 1;
      Plus(TallyBatch(topics, batch[..n], inputs, lo, hi), TallyOne(topics, batch[n], inputs(n), lo, hi))
  }

  /** Over the first n polls. */
  function TallyRun(polls: seq<Poll>, n: nat, lo: nat, hi: nat): Tally
    requires n <= |polls|
  {
    if n == 0 then Tally(0, 0, 0, 0)
    else
      var p := polls[n - 1];
      Plus(TallyRun(polls, n - 1, lo, hi), TallyBatch(p.topics, Taken(p), p.inputs, lo, hi))
  }

  lemma TallyStep(polls: seq<Poll>, n: nat, lo: nat, hi: nat)
    requires 0 < n <= |polls|
    ensures var p := polls[n - 1];
            TallyRun(polls, n, lo, hi) == Plus(TallyRun(polls, n - 1, lo, hi), TallyBatch(p.topics, Taken(p), p.inputs, lo, hi))
  {
  }

  /** The rounds of a tally were paid for by credit or by lost writes, with four calls each at most. */
  predicate Paid(before: nat, after: nat, t: Tally) {
    t.rounds + after <= before + t.lost && t.calls <= 4 * t.rounds && t.errors <= t.rounds
  }

  lemma PaidTwice(a: nat, b: nat, c: nat, t: Tally, u: Tally)
    requires Paid(a, b, t) && Paid(b, c, u)
    ensures Paid(a, c, Plus(t, u))
  {
  }

  lemma OneSpends(rows: Rows, topics: map<string, T.Meta>, entry: Row, input: Input, lo: nat, hi: nat)
    requires entry.id in rows && rows[entry.id] == entry && entry.status == Pending && entry.retryCount < MAX_ROUNDS
    ensures Paid(Credits(rows, lo, hi), Credits(HandleOne(rows, topics, entry, input), lo, hi),
                 TallyOne(topics, entry, input, lo, hi))
  {
    hide RunRound, Credit, Credits, HandledRow, HandleOne;
    RoundSpends(topics, entry, input);
    OneEffect(rows, topics, entry, input);
    CreditsUpdate(rows, entry.id, HandledRow(topics, entry, input), lo, hi);
  }

  lemma {:induction false} BatchSpends(rows: Rows, topics: map<string, T.Meta>, batch: seq<Row>, inputs: nat -> Input, lo: nat, hi: nat)
    requires Held(rows, batch)
    ensures Paid(Credits(rows, lo, hi), Credits(HandleAll(rows, topics, batch, inputs), lo, hi),
                 TallyBatch(topics, batch, inputs, lo, hi))
  {
    hide Credits, HandleOne, TallyOne;
    if batch != [] {
      var n := |batch| - 1;
      var first := batch[..n];
      BatchSpends(rows, topics, first, inputs, lo, hi);
      OtherRow(rows, topics, first, inputs, batch[n].id);
      var before := HandleAll(rows, topics, first, inputs);
      OneSpends(before, topics, batch[n], inputs(n), lo, hi);
      PaidTwice(Credits(rows, lo, hi), Credits(before, lo, hi), Credits(HandleOne(before, topics, batch[n], inputs(n)), lo, hi),
                TallyBatch(topics, first, inputs, lo, hi), TallyOne(topics, batch[n], inputs(n), lo, hi));
    }
  }

  // ---------- over a run ----------

  lemma PollHeld(rows: Rows, p: Poll, limit: nat, rows': Rows)
    requires Sound(rows) && IsPoll(rows, p, limit, rows')
    ensures Held(rows, Taken(p))
  {
  }

  /** A row that a poll does not handle stays as it is. */
  lemma Untouched(rows: Rows, p: Poll, limit: nat, rows': Rows, id: nat)
    requires IsPoll(rows, p, limit, rows') && id in rows && !Handles(p, id)
    ensures id in rows' && rows'[id] == rows[id]
  {
    OtherRow(rows, p.topics, Taken(p), p.inputs, id);
    hide HandleAll, IsBatch;
  }

  /** A row that a poll handles changes by the round of its entry. */
  lemma Touched(rows: Rows, p: Poll, limit: nat, rows': Rows, k: nat)
    requires Sound(rows) && IsPoll(rows, p, limit, rows') && k < |Taken(p)|
    ensures Taken(p)[k].id in rows && Taken(p)[k] == rows[Taken(p)[k].id]
    ensures Taken(p)[k].id in rows' && rows'[Taken(p)[k].id] == HandledRow(p.topics, Taken(p)[k], p.inputs(k))
  {
    PollHeld(rows, p, limit, rows');
    EntryRow(rows, p.topics, Taken(p), p.inputs, k);
    hide HandleAll, HandledRow;
  }

  lemma PollSound(rows: Rows, p: Poll, limit: nat, rows': Rows)
    requires Sound(rows) && IsPoll(rows, p, limit, rows')
    ensures Sound(rows') && rows.Keys <= rows'.Keys
  {
    BatchKeys(rows, p.topics, Taken(p), p.inputs);
    forall id | id in rows'
      ensures rows'[id].id == id && (rows'[id].status == Pending ==> rows'[id].retryCount < MAX_ROUNDS)
    {
      if id in rows {
        if Handles(p, id) {
          var k: nat :| k < |Taken(p)| && Taken(p)[k].id == id;
          Touched(rows, p, limit, rows', k);
          RoundOutcome(p.topics, Taken(p)[k], p.inputs(k).env, p.inputs(k).now);
          hide RunRound, HandleAll, IsBatch;
        } else {
          Untouched(rows, p, limit, rows', id);
        }
      }
    }
  }

  lemma {:induction false} AlwaysSound(tables: seq<Rows>, polls: seq<Poll>, limit: nat, n: nat)
    requires IsPolling(tables, polls, limit) && n <= |polls|
    ensures Sound(tables[n])
  {
    if n > 0 {
      AlwaysSound(tables, polls, limit, n - 1);
      PollSound(tables[n - 1], polls[n - 1], limit, tables[n]);
    }
  }

  ghost predicate NoneAdded(polls: seq<Poll>, lo: nat, hi: nat) {
    forall i, id | 0 <= i < |polls| && id in polls[i].added :: !(lo <= id < hi)
  }

  lemma PollSpends(rows: Rows, p: Poll, limit: nat, rows': Rows, lo: nat, hi: nat)
    requires Sound(rows) && IsPoll(rows, p, limit, rows')
    requires forall id :: id in p.added ==> !(lo <= id < hi)
    ensures Paid(Credits(rows, lo, hi), Credits(rows', lo, hi), TallyBatch(p.topics, Taken(p), p.inputs, lo, hi))
  {
    PollHeld(rows, p, limit, rows');
    hide Sound, IsBatch, Held, HandleAll, TallyBatch;
    BatchSpends(rows, p.topics, Taken(p), p.inputs, lo, hi);
    CreditsSame(HandleAll(rows, p.topics, Taken(p), p.inputs), rows', lo, hi);
  }

  lemma OnePoll(tables: seq<Rows>, polls: seq<Poll>, limit: nat, n: nat)
    requires IsPolling(tables, polls, limit) && n < |polls|
    ensures IsPoll(tables[n], polls[n], limit, tables[n + 1])
  {
  }

  /** Credit is conserved or spent: on every run, over any interval of ids that gains no rows, each
      round lowers the credit left by one or is paid for by a lost status write. */
  lemma {:induction false} CreditIsSpent(tables: seq<Rows>, polls: seq<Poll>, limit: nat, n: nat, lo: nat, hi: nat)
    requires IsPolling(tables, polls, limit) && n <= |polls| && NoneAdded(polls, lo, hi)
    ensures Paid(Credits(tables[0], lo, hi), Credits(tables[n], lo, hi), TallyRun(polls, n, lo, hi))
  {
    hide IsPoll, Sound, TallyBatch, Credits;
    if n > 0 {
      CreditIsSpent(tables, polls, limit, n - 1, lo, hi);
      AlwaysSound(tables, polls, limit, n - 1);
      var p := polls[n - 1];
      PollSpends(tables[n - 1], p, limit, tables[n], lo, hi);
      PaidTwice(Credits(tables[0], lo, hi), Credits(tables[n - 1], lo, hi), Credits(tables[n], lo, hi),
                TallyRun(polls, n - 1, lo, hi), TallyBatch(p.topics, Taken(p), p.inputs, lo, hi));
    }
  }

  // ---------- one entry ----------

  lemma {:induction false} Stays(tables: seq<Rows>, polls: seq<Poll>, limit: nat, id: nat, m: nat, n: nat)
    requires IsPolling(tables, polls, limit) && m <= n <= |polls| && id in tables[m]
    requires forall j: nat :: m <= j < n ==> !Handles(polls[j], id)
    ensures id in tables[n] && tables[n][id] == tables[m][id]
    decreases n
  {
    if m < n {
      Stays(tables, polls, limit, id, m, n - 1);
      hide IsPoll;
      Untouched(tables[n - 1], polls[n - 1], limit, tables[n], id);
    }
  }

  lemma {:induction false} NeverLost(tables: seq<Rows>, polls: seq<Poll>, limit: nat, id: nat, n: nat)
    requires IsPolling(tables, polls, limit) && n <= |polls| && id in tables[0]
    ensures id in tables[n]
  {
    hide IsPoll;
    if n > 0 {
      NeverLost(tables, polls, limit, id, n - 1);
      AlwaysSound(tables, polls, limit, n - 1);
      PollSound(tables[n - 1], polls[n - 1], limit, tables[n]);
    }
  }

  lemma NeverAddedAgain(tables: seq<Rows>, polls: seq<Poll>, limit: nat, id: nat)
    requires IsPolling(tables, polls, limit) && id in tables[0]
    ensures NoneAdded(polls, id, id + 1)
  {
    forall i: nat | i < |polls|
      ensures id !in polls[i].added
    {
      NeverLost(tables, polls, limit, id, i);
      OnePoll(tables, polls, limit, i);
    }
  }

  /** An entry gets at most as many rounds as its credit, and at most four calls of Publish in each:
      five rounds and twenty calls between two resets, plus one round for every status write of its
      own that was lost. */
  lemma RoundsBound(tables: seq<Rows>, polls: seq<Poll>, limit: nat, id: nat)
    requires IsPolling(tables, polls, limit) && id in tables[0]
    ensures var t := TallyRun(polls, |polls|, id, id + 1);
            && t.rounds <= Credit(tables[0][id]) + t.lost <= MAX_ROUNDS + t.lost
            && t.calls <= 4 * t.rounds
            && (t.lost == 0 ==> t.rounds <= 5 && t.calls <= 20)
  {
    NeverAddedAgain(tables, polls, limit, id);
    CreditIsSpent(tables, polls, limit, |polls|, id, id + 1);
    assert Credits(tables[0], id, id + 1) == Credit(tables[0][id]) + Credits(tables[0], id, id);
  }

  lemma NotTaken(rows: Rows, p: Poll, limit: nat, rows': Rows, id: nat)
    requires IsPoll(rows, p, limit, rows') && id in rows && rows[id].status != Pending
    ensures !Handles(p, id)
  {
    hide HandleAll;
  }

  /** An entry that is published or failed is never handled again and never changes. */
  lemma {:induction false} Settled(tables: seq<Rows>, polls: seq<Poll>, limit: nat, id: nat, m: nat, n: nat)
    requires IsPolling(tables, polls, limit) && m <= n <= |polls|
    requires id in tables[m] && tables[m][id].status != Pending
    ensures id in tables[n] && tables[n][id] == tables[m][id]
    ensures forall j: nat :: m <= j < n ==> !Handles(polls[j], id)
    decreases n
  {
    hide IsPoll;
    if m < n {
      Settled(tables, polls, limit, id, m, n - 1);
      NotTaken(tables[n - 1], polls[n - 1], limit, tables[n], id);
      Untouched(tables[n - 1], polls[n - 1], limit, tables[n], id);
    }
  }

  lemma TallyLast(topics: map<string, T.Meta>, batch: seq<Row>, inputs: nat -> Input, lo: nat, hi: nat)
    requires batch != []
    ensures var n := |batch| - 1;
            TallyBatch(topics, batch, inputs, lo, hi)
            == Plus(TallyBatch(topics, batch[..n], inputs, lo, hi), TallyOne(topics, batch[n], inputs(n), lo, hi))
  {
    hide RunRound, TallyOne, Plus;
  }

  lemma {:induction false} TallyOthers(topics: map<string, T.Meta>, batch: seq<Row>, inputs: nat -> Input, id: nat)
    requires forall k :: 0 <= k < |batch| ==> batch[k].id != id
    ensures TallyBatch(topics, batch, inputs, id, id + 1) == Tally(0, 0, 0, 0)
  {
    hide TallyOne;
    if batch != [] {
      var n := |batch| - 1;
      TallyLast(topics, batch, inputs, id, id + 1);
      Outside(topics, batch[n], inputs(n), id, id + 1);
      hide TallyBatch;
      TallyOthers(topics, batch[..n], inputs, id);
    }
  }

  lemma {:induction false} TallyEntry(topics: map<string, T.Meta>, batch: seq<Row>, inputs: nat -> Input, k: nat)
    requires k < |batch| && forall i, j :: 0 <= i < j < |batch| ==> batch[i].id < batch[j].id
    ensures var id := batch[k].id;
            TallyBatch(topics, batch, inputs, id, id + 1) == TallyOne(topics, batch[k], inputs(k), id, id + 1)
  {
    hide TallyBatch, TallyOne;
    var n := |batch| - 1;
    var first := batch[..n];
    TallyLast(topics, batch, inputs, batch[k].id, batch[k].id + 1);
    if k == n {
      TallyOthers(topics, first, inputs, batch[k].id);
    } else {
      TallyEntry(topics, first, inputs, k);
      Outside(topics, batch[n], inputs(n), batch[k].id, batch[k].id + 1);
    }
  }

  /** Poll p gave entry id a round whose status write was lost; a round that ended in an error. */
  predicate LosesWrite(p: Poll, id: nat) {
    exists k | 0 <= k < |Taken(p)| :: Taken(p)[k].id == id && !p.inputs(k).writeUp
  }

  predicate EndsInError(p: Poll, id: nat) {
    exists k | 0 <= k < |Taken(p)| ::
      Taken(p)[k].id == id && RunRound(p.topics, Taken(p)[k], p.inputs(k).env, p.inputs(k).now).err.Some?
  }

  lemma HandledTally(p: Poll, id: nat, k: nat)
    requires k < |Taken(p)| && Taken(p)[k].id == id && forall i, j :: 0 <= i < j < |Taken(p)| ==> Taken(p)[i].id < Taken(p)[j].id
    ensures TallyBatch(p.topics, Taken(p), p.inputs, id, id + 1) == TallyOne(p.topics, Taken(p)[k], p.inputs(k), id, id + 1)
    ensures Handles(p, id) && (LosesWrite(p, id) <==> !p.inputs(k).writeUp)
    ensures EndsInError(p, id) <==> RunRound(p.topics, Taken(p)[k], p.inputs(k).env, p.inputs(k).now).err.Some?
  {
    hide RunRound, TallyBatch;
    TallyEntry(p.topics, Taken(p), p.inputs, k);
  }

  lemma OnePollTally(rows: Rows, p: Poll, limit: nat, rows': Rows, id: nat)
    requires Sound(rows) && IsPoll(rows, p, limit, rows')
    ensures var t := TallyBatch(p.topics, Taken(p), p.inputs, id, id + 1);
            && t.rounds == (if Handles(p, id) then 1 else 0)
            && t.lost == (if LosesWrite(p, id) then 1 else 0)
            && t.errors == (if EndsInError(p, id) then 1 else 0)
  {
    hide IsPoll, Sound, TallyBatch, RunRound, LosesWrite, EndsInError;
    PollHeld(rows, p, limit, rows');
    if Handles(p, id) {
      var k: nat :| k < |Taken(p)| && Taken(p)[k].id == id;
      HandledTally(p, id, k);
    } else {
      TallyOthers(p.topics, Taken(p), p.inputs, id);
      NotHandled(p, id);
    }
  }

  lemma NotHandled(p: Poll, id: nat)
    requires !Handles(p, id)
    ensures !LosesWrite(p, id) && !EndsInError(p, id)
  {
    hide RunRound;
  }

  /** The polls of a run that handle an entry, lose its status write, or give it a round that ends in an
      error. */
  ghost function Handling(polls: seq<Poll>, id: nat): nat -> bool {
    (j: nat) => j < |polls| && Handles(polls[j], id)
  }

  ghost function Losing(polls: seq<Poll>, id: nat): nat -> bool {
    (j: nat) => j < |polls| && LosesWrite(polls[j], id)
  }

  ghost function Erring(polls: seq<Poll>, id: nat): nat -> bool {
    (j: nat) => j < |polls| && EndsInError(polls[j], id)
  }

  /** What a tally of one entry counts: the polls that handled it, those of them whose status write was
      lost, and those whose round ended in an error. */
  lemma {:induction false} TallyCounts(tables: seq<Rows>, polls: seq<Poll>, limit: nat, id: nat, n: nat)
    requires IsPolling(tables, polls, limit) && n <= |polls|
    ensures TallyRun(polls, n, id, id + 1).rounds == Number(0, n, Handling(polls, id))
    ensures TallyRun(polls, n, id, id + 1).lost == Number(0, n, Losing(polls, id))
    ensures TallyRun(polls, n, id, id + 1).errors == Number(0, n, Erring(polls, id))
  {
    hide IsPoll, Sound, TallyBatch, Handles, LosesWrite, EndsInError, Number;
    if n == 0 {
      NumberNone(0, Handling(polls, id));
      NumberNone(0, Losing(polls, id));
      NumberNone(0, Erring(polls, id));
    } else {
      TallyCounts(tables, polls, limit, id, n - 1);
      AlwaysSound(tables, polls, limit, n - 1);
      OnePollTally(tables[n - 1], polls[n - 1], limit, tables[n], id);
      NumberNext(0, n - 1, Handling(polls, id));
      NumberNext(0, n - 1, Losing(polls, id));
      NumberNext(0, n - 1, Erring(polls, id));
    }
  }

  lemma OneSplits(topics: map<string, T.Meta>, entry: Row, input: Input, lo: nat, mid: nat, hi: nat)
    requires lo <= mid <= hi
    ensures TallyOne(topics, entry, input, lo, hi) == Plus(TallyOne(topics, entry, input, lo, mid), TallyOne(topics, entry, input, mid, hi))
  {
    hide RunRound;
  }

  lemma Regroup(a: Tally, b: Tally, c: Tally, d: Tally)
    ensures Plus(Plus(a, b), Plus(c, d)) == Plus(Plus(a, c), Plus(b, d))
  {
  }

  /** The tally of several entries is the sum of theirs. */
  lemma {:induction false} TallySplits(topics: map<string, T.Meta>, batch: seq<Row>, inputs: nat -> Input, lo: nat, mid: nat, hi: nat)
    requires lo <= mid <= hi
    ensures TallyBatch(topics, batch, inputs, lo, hi)
            == Plus(TallyBatch(topics, batch, inputs, lo, mid), TallyBatch(topics, batch, inputs, mid, hi))
  {
    hide RunRound, TallyOne;
    if batch != [] {
      var n := |batch| - 1;
      var first := batch[..n];
      TallySplits(topics, first, inputs, lo, mid, hi);
      OneSplits(topics, batch[n], inputs(n), lo, mid, hi);
      TallyLast(topics, batch, inputs, lo, mid);
      TallyLast(topics, batch, inputs, mid, hi);
      TallyLast(topics, batch, inputs, lo, hi);
      Regroup(TallyBatch(topics, first, inputs, lo, mid), TallyBatch(topics, first, inputs, mid, hi),
              TallyOne(topics, batch[n], inputs(n), lo, mid), TallyOne(topics, batch[n], inputs(n), mid, hi));
    }
  }

  lemma {:induction false} RunTallySplits(polls: seq<Poll>, n: nat, lo: nat, mid: nat, hi: nat)
    requires n <= |polls| && lo <= mid <= hi
    ensures TallyRun(polls, n, lo, hi) == Plus(TallyRun(polls, n, lo, mid), TallyRun(polls, n, mid, hi))
  {
    hide TallyBatch;
    if n > 0 {
      var p := polls[n - 1];
      RunTallySplits(polls, n - 1, lo, mid, hi);
      TallySplits(p.topics, Taken(p), p.inputs, lo, mid, hi);
    }
  }

  /** A round after which the relay does not try again: undecodable headers, an invalid key, or a
      permanent broker error. */
  predicate GivenUp(topics: map<string, T.Meta>, entry: Row, input: Input) {
    entry.headers == Malformed
    || var err := RunRound(topics, entry, input.env, input.now).err; err.Some? && err.value.produce == Some(false)
  }

  predicate GaveUp(polls: seq<Poll>, n: nat, id: nat)
    requires n <= |polls|
  {
    exists j, k | 0 <= j < n && 0 <= k < |Taken(polls[j])| ::
      Taken(polls[j])[k].id == id && GivenUp(polls[j].topics, Taken(polls[j])[k], polls[j].inputs(k))
  }

  /** How errors are counted: the retry count never exceeds the errors seen since `start`, and an entry
      is given up on the fifth or at once. */
  ghost predicate Counted(row: Row, start: nat, errors: nat, gaveUp: bool) {
    && (row.status == Pending ==> row.retryCount <= start + errors)
    && (row.status == Failed ==> gaveUp || start + errors >= MAX_ROUNDS)
  }

  lemma RoundCounted(topics: map<string, T.Meta>, entry: Row, input: Input, start: nat, errors: nat, gaveUp: bool)
    requires entry.status == Pending && Counted(entry, start, errors, gaveUp)
    ensures var t := TallyOne(topics, entry, input, entry.id, entry.id + 1);
            Counted(HandledRow(topics, entry, input), start, errors + t.errors, gaveUp || GivenUp(topics, entry, input))
  {
    if entry.headers != Malformed {
      hide R.DoResult;
    }
  }

  lemma PollCounted(rows: Rows, p: Poll, limit: nat, rows': Rows, id: nat, start: nat, errors: nat, gaveUp: bool, gaveUp': bool)
    requires Sound(rows) && IsPoll(rows, p, limit, rows') && id in rows && id in rows'
    requires Counted(rows[id], start, errors, gaveUp) && (gaveUp ==> gaveUp')
    requires forall k | 0 <= k < |Taken(p)| :: Taken(p)[k].id == id && GivenUp(p.topics, Taken(p)[k], p.inputs(k)) ==> gaveUp'
    ensures Counted(rows'[id], start, errors + TallyBatch(p.topics, Taken(p), p.inputs, id, id + 1).errors, gaveUp')
  {
    hide GivenUp, TallyBatch, TallyOne, HandledRow, IsPoll, Sound;
    PollHeld(rows, p, limit, rows');
    if Handles(p, id) {
      var k: nat :| k < |Taken(p)| && Taken(p)[k].id == id;
      var entry := Taken(p)[k];
      Touched(rows, p, limit, rows', k);
      TallyEntry(p.topics, Taken(p), p.inputs, k);
      assert entry == rows[id] && entry.status == Pending;
      RoundCounted(p.topics, entry, p.inputs(k), start, errors, gaveUp);
    } else {
      Untouched(rows, p, limit, rows', id);
    }
  }

  /** The last poll is part of the run. */
  lemma GaveUpInLast(polls: seq<Poll>, n: nat, id: nat)
    requires 0 < n <= |polls|
    ensures GaveUp(polls, n - 1, id) ==> GaveUp(polls, n, id)
    ensures var p := polls[n - 1];
            forall k | 0 <= k < |Taken(p)| :: Taken(p)[k].id == id && GivenUp(p.topics, Taken(p)[k], p.inputs(k)) ==> GaveUp(polls, n, id)
  {
    hide GivenUp;
  }

  lemma {:induction false} RunCounted(tables: seq<Rows>, polls: seq<Poll>, limit: nat, id: nat, n: nat)
    requires IsPolling(tables, polls, limit) && n <= |polls| && id in tables[0] && tables[0][id].status == Pending
    ensures id in tables[n]
    ensures Counted(tables[n][id], tables[0][id].retryCount, TallyRun(polls, n, id, id + 1).errors, GaveUp(polls, n, id))
  {
    hide IsPoll, Sound, TallyBatch, GivenUp, GaveUp;
    NeverLost(tables, polls, limit, id, n);
    if n > 0 {
      RunCounted(tables, polls, limit, id, n - 1);
      AlwaysSound(tables, polls, limit, n - 1);
      GaveUpInLast(polls, n, id);
      PollCounted(tables[n - 1], polls[n - 1], limit, tables[n], id, tables[0][id].retryCount,
                  TallyRun(polls, n - 1, id, id + 1).errors, GaveUp(polls, n - 1, id), GaveUp(polls, n, id));
    }
  }

  /** Since its last reset, an entry becomes failed only after a round it could not survive, or after
      five rounds that ended in errors; and as long as no write of its own is lost, the retry count of
      a pending entry is the number of its rounds. */
  lemma FailedAfterFive(tables: seq<Rows>, polls: seq<Poll>, limit: nat, id: nat)
    requires IsPolling(tables, polls, limit) && id in tables[0]
    requires tables[0][id].status == Pending && tables[0][id].retryCount == 0
    ensures var (t, n) := (TallyRun(polls, |polls|, id, id + 1), |polls|);
            && id in tables[n]
            && (tables[n][id].status == Failed ==> GaveUp(polls, n, id) || t.errors >= MAX_ROUNDS)
            && (tables[n][id].status == Pending && t.lost == 0 ==> tables[n][id].retryCount == t.rounds == t.errors)
  {
    var n := |polls|;
    RunCounted(tables, polls, limit, id, n);
    AlwaysSound(tables, polls, limit, n);
    NeverAddedAgain(tables, polls, limit, id);
    CreditIsSpent(tables, polls, limit, n, id, id + 1);
    assert Credits(tables[0], id, id + 1) == Credit(tables[0][id]) + Credits(tables[0], id, id);
    assert Credits(tables[n], id, id + 1) == Credit(tables[n][id]) + Credits(tables[n], id, id);
  }

  // ---------- waiting for a round ----------

  lemma {:induction false} AllBelow(topics: map<string, T.Meta>, batch: seq<Row>, inputs: nat -> Input, lo: nat, hi: nat)
    requires forall k :: 0 <= k < |batch| ==> lo <= batch[k].id < hi
    ensures TallyBatch(topics, batch, inputs, lo, hi).rounds == |batch|
  {
    hide RunRound;
    if batch != [] {
      AllBelow(topics, batch[..|batch| - 1], inputs, lo, hi);
    }
  }

  lemma BelowAndFull(rows: Rows, p: Poll, limit: nat, rows': Rows, id: nat)
    requires Sound(rows) && IsPoll(rows, p, limit, rows') && id in rows && Eligible(rows[id], p.now) && !Handles(p, id) && Whole(p)
    ensures |Taken(p)| == limit && forall k :: 0 <= k < |Taken(p)| ==> 0 <= Taken(p)[k].id < id
  {
  }

  /** The rounds of lower entries, and batches for the entry's own, make up n polls. */
  predicate Used(below: nat, own: nat, n: nat, limit: nat) {
    below + own * limit >= n * limit
  }

  lemma OneMore(n: nat, k: nat)
    requires n > 0
    ensures n * k == (n - 1) * k + k
  {
  }

  lemma UsingNone(below: nat, own: nat, limit: nat)
    ensures Used(below, own, 0, limit)
  {
    assert 0 * limit == 0 && own * limit >= 0;
  }

  lemma Using(below: nat, own: nat, more: nat, mine: nat, n: nat, whole: bool, limit: nat)
    requires Used(below, own, n, limit) && (whole ==> mine >= 1 || more >= limit)
    ensures Used(below + more, own + mine, n + if whole then 1 else 0, limit)
  {
    OneMore(n + 1, limit);
    assert (own + mine) * limit == own * limit + mine * limit;
    if mine >= 1 {
      assert mine * limit >= limit by { OneMore(mine, limit); }
    }
  }

  /** While an eligible entry is passed over, every whole poll is full of entries with lower ids. */
  lemma FullPoll(tables: seq<Rows>, polls: seq<Poll>, limit: nat, id: nat, n: nat)
    requires IsPolling(tables, polls, limit) && n < |polls|
    requires id in tables[0] && Eligible(tables[0][id], polls[0].now)
    requires forall j: nat :: j <= n ==> !Handles(polls[j], id)
    ensures TallyRun(polls, n + 1, 0, id).rounds >= TallyRun(polls, n, 0, id).rounds + if Whole(polls[n]) then limit else 0
  {
    hide TallyBatch, IsPoll, Sound;
    Stays(tables, polls, limit, id, 0, n);
    AlwaysSound(tables, polls, limit, n);
    var p := polls[n];
    assert polls[0].now <= p.now && !Handles(p, id);
    if Whole(p) {
      BelowAndFull(tables[n], p, limit, tables[n + 1], id);
      AllBelow(p.topics, Taken(p), p.inputs, 0, id);
    }
  }

  lemma {:induction false} PassedOver(tables: seq<Rows>, polls: seq<Poll>, limit: nat, id: nat, n: nat)
    requires IsPolling(tables, polls, limit) && n <= |polls|
    requires n > 0 ==> id in tables[0] && Eligible(tables[0][id], polls[0].now)
    requires forall j: nat :: j < n ==> !Handles(polls[j], id)
    ensures Used(TallyRun(polls, n, 0, id).rounds, 0, WholePolls(polls, n), limit)
  {
    hide IsPoll, Sound, TallyBatch, TallyRun, Used;
    var below := TallyRun(polls, n, 0, id).rounds;
    if n == 0 {
      UsingNone(below, 0, limit);
    } else {
      PassedOver(tables, polls, limit, id, n - 1);
      FullPoll(tables, polls, limit, id, n - 1);
      var before := TallyRun(polls, n - 1, 0, id).rounds;
      Using(before, 0, below - before, 0, WholePolls(polls, n - 1), Whole(polls[n - 1]), limit);
    }
  }

  /** No starvation: before an eligible entry is handled there are at most credit / batch size whole
      polls, where credit is what the pending entries below it have left, plus the status writes lost
      on them; rows added meanwhile with higher ids do not matter, nor do polls that are cut short. */
  lemma NoStarvation(tables: seq<Rows>, polls: seq<Poll>, limit: nat, id: nat)
    requires IsPolling(tables, polls, limit) && NoneAdded(polls, 0, id)
    requires polls != [] && id in tables[0] && Eligible(tables[0][id], polls[0].now)
    requires WholePolls(polls, |polls|) * limit > Credits(tables[0], 0, id) + TallyRun(polls, |polls|, 0, id).lost
    ensures exists j: nat :: j < |polls| && Handles(polls[j], id)
                             && WholePolls(polls, j) * limit <= Credits(tables[0], 0, id) + TallyRun(polls, j, 0, id).lost
  {
    hide IsPoll, Sound, TallyRun, WholePolls, Used, Credits;
    if forall j: nat :: j < |polls| ==> !Handles(polls[j], id) {
      PassedOver(tables, polls, limit, id, |polls|);
      CreditIsSpent(tables, polls, limit, |polls|, 0, id);
      UsedBelow(TallyRun(polls, |polls|, 0, id).rounds, WholePolls(polls, |polls|), limit);
      assert false;
    } else {
      var j := FirstHandled(polls, id);
      PassedOver(tables, polls, limit, id, j);
      CreditIsSpent(tables, polls, limit, j, 0, id);
      UsedBelow(TallyRun(polls, j, 0, id).rounds, WholePolls(polls, j), limit);
    }
  }

  lemma UsedBelow(below: nat, n: nat, limit: nat)
    requires Used(below, 0, n, limit)
    ensures below >= n * limit
  {
    assert 0 * limit == 0;
  }

  lemma {:induction false} FirstHandled(polls: seq<Poll>, id: nat) returns (j: nat)
    requires exists j: nat :: j < |polls| && Handles(polls[j], id)
    ensures j < |polls| && Handles(polls[j], id) && forall i: nat :: i < j ==> !Handles(polls[i], id)
  {
    j := 0;
    while !Handles(polls[j], id)
      invariant j < |polls| && forall i: nat :: i < j ==> !Handles(polls[i], id)
      decreases |polls| - j
    {
      j := j + 1;
    }
  }

  /** Entries get their first round in id order, even while earlier ones wait for a retry: if b > a is
      handled, then a, eligible from the start, was handled in an earlier poll or earlier in this one. */
  lemma FirstRoundsInIdOrder(tables: seq<Rows>, polls: seq<Poll>, limit: nat, a: nat, b: nat, j: nat, q: nat)
    requires IsPolling(tables, polls, limit) && a < b && j < |polls|
    requires a in tables[0] && Eligible(tables[0][a], polls[0].now)
    requires q < |Taken(polls[j])| && Taken(polls[j])[q].id == b
    ensures || (exists i: nat :: i < j && Handles(polls[i], a))
            || (exists p: nat :: p < q && Taken(polls[j])[p].id == a)
  {
    if forall i: nat :: i < j ==> !Handles(polls[i], a) {
      Stays(tables, polls, limit, a, 0, j);
      AlwaysSound(tables, polls, limit, j);
      assert IsPoll(tables[j], polls[j], limit, tables[j + 1]);
      var batch := polls[j].batch;
      assert batch[q].id == b;
      assert tables[j][a] in batch;
      var p: nat :| p < |batch| && batch[p] == tables[j][a];
      assert batch[p].id == a;
    }
  }

  // ---------- draining ----------

  /** A whole poll that finds the row eligible. */
  predicate FindsDue(rows: Rows, p: Poll, id: nat) {
    Whole(p) && id in rows && Eligible(rows[id], p.now)
  }

  /** How many of the first n polls were whole and found the entry eligible. */
  function DuePolls(tables: seq<Rows>, polls: seq<Poll>, id: nat, n: nat): nat
    requires n <= |polls| && |tables| == |polls| + 1
  {
    if n == 0 then 0 else DuePolls(tables, polls, id, n - 1) + if FindsDue(tables[n - 1], polls[n - 1], id) then 1 else 0
  }

  /** Such a poll gives the entry a round, or is full of rounds of lower ones. */
  lemma PollMoves(rows: Rows, p: Poll, limit: nat, rows': Rows, id: nat)
    requires Sound(rows) && IsPoll(rows, p, limit, rows') && FindsDue(rows, p, id)
    ensures var (below, own) := (TallyBatch(p.topics, Taken(p), p.inputs, 0, id).rounds, TallyBatch(p.topics, Taken(p), p.inputs, id, id + 1).rounds);
            own >= 1 || below == limit
  {
    hide TallyBatch, RunRound, IsPoll, Sound;
    if Handles(p, id) {
      PollHeld(rows, p, limit, rows');
      var k: nat :| k < |Taken(p)| && Taken(p)[k].id == id;
      TallyEntry(p.topics, Taken(p), p.inputs, k);
    } else {
      BelowAndFull(rows, p, limit, rows', id);
      AllBelow(p.topics, Taken(p), p.inputs, 0, id);
    }
  }

  lemma {:induction false} PollsAreUsed(tables: seq<Rows>, polls: seq<Poll>, limit: nat, id: nat, n: nat)
    requires IsPolling(tables, polls, limit) && n <= |polls|
    ensures Used(TallyRun(polls, n, 0, id).rounds, TallyRun(polls, n, id, id + 1).rounds, DuePolls(tables, polls, id, n), limit)
  {
    hide IsPoll, Sound, TallyBatch, TallyRun, Used, FindsDue;
    if n == 0 {
      UsingNone(TallyRun(polls, 0, 0, id).rounds, TallyRun(polls, 0, id, id + 1).rounds, limit);
    } else {
      PollsAreUsed(tables, polls, limit, id, n - 1);
      AlwaysSound(tables, polls, limit, n - 1);
      TallyStep(polls, n, 0, id);
      TallyStep(polls, n, id, id + 1);
      var p := polls[n - 1];
      var due := FindsDue(tables[n - 1], p, id);
      if due {
        PollMoves(tables[n - 1], p, limit, tables[n], id);
      }
      Using(TallyRun(polls, n - 1, 0, id).rounds, TallyRun(polls, n - 1, id, id + 1).rounds,
            TallyBatch(p.topics, Taken(p), p.inputs, 0, id).rounds, TallyBatch(p.topics, Taken(p), p.inputs, id, id + 1).rounds,
            DuePolls(tables, polls, id, n - 1), due, limit);
    }
  }

  /** The rounds an entry can have had while it is pending. */
  lemma OwnRounds(tables: seq<Rows>, polls: seq<Poll>, limit: nat, id: nat)
    requires IsPolling(tables, polls, limit) && id in tables[0]
    requires id in tables[|polls|] && tables[|polls|][id].status == Pending
    ensures TallyRun(polls, |polls|, id, id + 1).rounds <= 4 + TallyRun(polls, |polls|, id, id + 1).lost
  {
    hide IsPoll, Sound, TallyRun;
    NeverAddedAgain(tables, polls, limit, id);
    AlwaysSound(tables, polls, limit, |polls|);
    CreditIsSpent(tables, polls, limit, |polls|, id, id + 1);
    PendingCredit(tables[0], id);
    PendingCredit(tables[|polls|], id);
    StillPending(tables[|polls|], id);
  }

  /** The relay drains, for any clock, any polls cut short and any lost writes: each whole poll that finds
      the entry eligible is used for a round of its own or for a batch of rounds of entries below it.  So
      the entry is published or failed once there were more of them than four, plus the writes lost on
      it, plus the batches that the credit and the lost writes below it fill. */
  lemma Drains(tables: seq<Rows>, polls: seq<Poll>, limit: nat, id: nat)
    requires IsPolling(tables, polls, limit) && NoneAdded(polls, 0, id) && id in tables[0]
    requires var due := DuePolls(tables, polls, id, |polls|);
             var k := 4 + TallyRun(polls, |polls|, id, id + 1).lost;
             due > k && (due - k) * limit > Credits(tables[0], 0, id) + TallyRun(polls, |polls|, 0, id).lost
    ensures id in tables[|polls|] && tables[|polls|][id].status != Pending
  {
    hide IsPoll, Sound, TallyRun, Used, DuePolls, Credits;
    var n := |polls|;
    NeverLost(tables, polls, limit, id, n);
    if tables[n][id].status == Pending {
      OwnRounds(tables, polls, limit, id);
      PollsAreUsed(tables, polls, limit, id, n);
      CreditIsSpent(tables, polls, limit, n, 0, id);
      TooMany(TallyRun(polls, n, id, id + 1).rounds, TallyRun(polls, n, 0, id).rounds, DuePolls(tables, polls, id, n),
              4 + TallyRun(polls, n, id, id + 1).lost, limit);
      assert false;
    }
  }

  lemma PendingCredit(rows: Rows, id: nat)
    requires id in rows
    ensures Credits(rows, id, id + 1) == Credit(rows[id]) <= MAX_ROUNDS
  {
    assert Credits(rows, id, id) == 0;
  }

  lemma StillPending(rows: Rows, id: nat)
    requires Sound(rows) && id in rows && rows[id].status == Pending
    ensures Credit(rows[id]) >= 1
  {
  }

  lemma TooMany(own: nat, below: nat, n: nat, k: nat, limit: nat)
    requires own <= k <= n && Used(below, own, n, limit)
    ensures below >= (n - k) * limit
  {
    assert n * limit == (n - k) * limit + k * limit;
    assert k * limit == own * limit + (k - own) * limit && (k - own) * limit >= 0;
  }

  // ---------- draining by the clock ----------

  /** The row's wait is not over. */
  predicate Resting(row: Row, now: int) {
    row.nextRetryAt.Some? && row.nextRetryAt.value > now
  }

  /** How many of the first n polls found the row resting. */
  function RestingPolls(tables: seq<Rows>, polls: seq<Poll>, id: nat, n: nat): nat
    requires n <= |polls| && |tables| == |polls| + 1
  {
    if n == 0 then 0
    else
      RestingPolls(tables, polls, id, n - 1)
      + if id in tables[n - 1] && Resting(tables[n - 1][id], polls[n - 1].now) then 1 else 0
  }

  /** Polls are at least `gap` apart, and each comes after the status writes of the one before. */
  ghost predicate Ticking(polls: seq<Poll>, gap: nat) {
    forall i: nat :: i + 1 < |polls| ==> polls[i].now + gap <= polls[i + 1].now && WritesBy(polls[i], polls[i + 1].now)
  }

  /** The poll makes its status writes by the time given. */
  ghost predicate WritesBy(p: Poll, time: int) {
    forall k: nat :: k < |Taken(p)| ==> p.inputs(k).now <= time
  }

  /** What is left of the row's wait, and one gap more if there is any. */
  function Rest(row: Row, now: int, gap: nat): nat {
    if Resting(row, now) then row.nextRetryAt.value - now + gap else 0
  }

  lemma HandledRest(topics: map<string, T.Meta>, entry: Row, input: Input, now: int, later: int, gap: nat)
    requires Eligible(entry, now) && now <= later && input.now <= later
    ensures Rest(HandledRow(topics, entry, input), later, gap) <= LONGEST_WAIT + gap
  {
    WaitLength(topics, entry, input.env, input.now);
    hide RunRound;
  }

  /** One poll: a rest shrinks by a gap, and only a round of the entry starts a new one. */
  lemma PollRests(rows: Rows, p: Poll, limit: nat, rows': Rows, id: nat, later: int, gap: nat)
    requires Sound(rows) && IsPoll(rows, p, limit, rows') && id in rows && p.now + gap <= later
    requires WritesBy(p, later)
    ensures id in rows'
    ensures (if Resting(rows[id], p.now) then gap else 0) + Rest(rows'[id], later, gap)
            <= Rest(rows[id], p.now, gap) + TallyBatch(p.topics, Taken(p), p.inputs, id, id + 1).rounds * (LONGEST_WAIT + gap)
  {
    hide IsPoll, Sound, HandledRow, TallyBatch, RunRound;
    if Handles(p, id) {
      PollHeld(rows, p, limit, rows');
      var k: nat :| k < |Taken(p)| && Taken(p)[k].id == id;
      Touched(rows, p, limit, rows', k);
      TakenIsEligible(rows, p, limit, rows', k);
      TallyEntry(p.topics, Taken(p), p.inputs, k);
      HandledRest(p.topics, Taken(p)[k], p.inputs(k), p.now, later, gap);
    } else {
      Untouched(rows, p, limit, rows', id);
      var rounds := TallyBatch(p.topics, Taken(p), p.inputs, id, id + 1).rounds;
      assert rounds * (LONGEST_WAIT + gap) >= 0;
    }
  }

  lemma TakenIsEligible(rows: Rows, p: Poll, limit: nat, rows': Rows, k: nat)
    requires IsPoll(rows, p, limit, rows') && k < |Taken(p)|
    ensures Eligible(Taken(p)[k], p.now)
  {
    hide HandleAll;
    assert Taken(p)[k] == p.batch[k];
  }

  predicate Rested(resting: nat, rest: nat, own: nat, gap: nat) {
    resting * gap + rest <= own * (LONGEST_WAIT + gap)
  }

  lemma RestedMore(resting: nat, rest: nat, own: nat, more: nat, rest': nat, mine: nat, gap: nat)
    requires Rested(resting, rest, own, gap) && more * gap + rest' <= rest + mine * (LONGEST_WAIT + gap)
    ensures Rested(resting + more, rest', own + mine, gap)
  {
    assert (resting + more) * gap == resting * gap + more * gap;
    assert (own + mine) * (LONGEST_WAIT + gap) == own * (LONGEST_WAIT + gap) + mine * (LONGEST_WAIT + gap);
  }

  lemma {:induction false} RestsAreBounded(tables: seq<Rows>, polls: seq<Poll>, limit: nat, id: nat, gap: nat, n: nat)
    requires IsPolling(tables, polls, limit) && Ticking(polls, gap) && n < |polls|
    requires id in tables[0] && Eligible(tables[0][id], polls[0].now)
    ensures id in tables[n]
    ensures Rested(RestingPolls(tables, polls, id, n), Rest(tables[n][id], polls[n].now, gap), TallyRun(polls, n, id, id + 1).rounds, gap)
  {
    hide IsPoll, Sound, TallyBatch, TallyRun, Rested, Rest;
    if n == 0 {
      RestedAtFirst(tables[0][id], polls, id, gap);
    } else {
      RestsAreBounded(tables, polls, limit, id, gap, n - 1);
      AlwaysSound(tables, polls, limit, n - 1);
      var p := polls[n - 1];
      PollRests(tables[n - 1], p, limit, tables[n], id, polls[n].now, gap);
      TallyStep(polls, n, id, id + 1);
      var more := if Resting(tables[n - 1][id], p.now) then 1 else 0;
      RestedMore(RestingPolls(tables, polls, id, n - 1), Rest(tables[n - 1][id], p.now, gap), TallyRun(polls, n - 1, id, id + 1).rounds,
                 more, Rest(tables[n][id], polls[n].now, gap), TallyBatch(p.topics, Taken(p), p.inputs, id, id + 1).rounds, gap);
    }
  }

  lemma RestedAtFirst(row: Row, polls: seq<Poll>, id: nat, gap: nat)
    requires polls != [] && Eligible(row, polls[0].now)
    ensures Rested(0, Rest(row, polls[0].now, gap), TallyRun(polls, 0, id, id + 1).rounds, gap)
  {
    assert 0 * gap == 0 && 0 * (LONGEST_WAIT + gap) == 0;
  }

  /** Each round of an entry makes it rest for at most 16 seconds' worth of polls, and one more. */
  lemma RestingBound(tables: seq<Rows>, polls: seq<Poll>, limit: nat, id: nat, gap: nat)
    requires IsPolling(tables, polls, limit) && Ticking(polls, gap) && polls != []
    requires id in tables[0] && Eligible(tables[0][id], polls[0].now)
    ensures RestingPolls(tables, polls, id, |polls|) * gap <= TallyRun(polls, |polls|, id, id + 1).rounds * (LONGEST_WAIT + gap)
  {
    hide IsPoll, Sound, TallyBatch, TallyRun, Rested, Rest;
    var n := |polls| - 1;
    RestsAreBounded(tables, polls, limit, id, gap, n);
    TallyStep(polls, |polls|, id, id + 1);
    var own, all := TallyRun(polls, n, id, id + 1).rounds, TallyRun(polls, |polls|, id, id + 1).rounds;
    LastRest(RestingPolls(tables, polls, id, n), tables[n][id], polls[n].now, own, all, gap);
  }

  lemma LastRest(resting: nat, row: Row, now: int, own: nat, all: nat, gap: nat)
    requires Rested(resting, Rest(row, now, gap), own, gap) && own <= all
    ensures (resting + if Resting(row, now) then 1 else 0) * gap <= all * (LONGEST_WAIT + gap)
  {
    assert (resting + 1) * gap == resting * gap + gap;
    assert all * (LONGEST_WAIT + gap) == own * (LONGEST_WAIT + gap) + (all - own) * (LONGEST_WAIT + gap);
    assert (all - own) * (LONGEST_WAIT + gap) >= 0;
  }

  /** While the entry is pending, a whole poll finds it eligible or resting. */
  lemma {:induction false} DueOrResting(tables: seq<Rows>, polls: seq<Poll>, limit: nat, id: nat, n: nat)
    requires IsPolling(tables, polls, limit) && n <= |polls|
    requires id in tables[0] && id in tables[n] && tables[n][id].status == Pending
    ensures WholePolls(polls, n) <= DuePolls(tables, polls, id, n) + RestingPolls(tables, polls, id, n)
  {
    hide IsPoll, Sound;
    if n > 0 {
      NeverLost(tables, polls, limit, id, n - 1);
      if tables[n - 1][id].status != Pending {
        Settled(tables, polls, limit, id, n - 1, n);
      }
      DueOrResting(tables, polls, limit, id, n - 1);
    }
  }

  /** The relay drains by the clock: with polls at least `gap` apart, an entry that was eligible at the
      first is published or failed once the whole polls are more than its own rounds, the rests between
      them and the batches below it account for.  With the default gap of one second and no write lost,
      that is 4 rounds, 4 * 17 rests and the batches. */
  lemma DrainsInTime(tables: seq<Rows>, polls: seq<Poll>, limit: nat, id: nat, gap: nat, rests: nat)
    requires IsPolling(tables, polls, limit) && NoneAdded(polls, 0, id) && Ticking(polls, gap) && gap >= 1
    requires polls != [] && id in tables[0] && Eligible(tables[0][id], polls[0].now)
    requires var whole := WholePolls(polls, |polls|);
             var k := 4 + TallyRun(polls, |polls|, id, id + 1).lost;
             && rests * gap >= k * (LONGEST_WAIT + gap)
             && whole > k + rests
             && (whole - k - rests) * limit > Credits(tables[0], 0, id) + TallyRun(polls, |polls|, 0, id).lost
    ensures id in tables[|polls|] && tables[|polls|][id].status != Pending
  {
    hide IsPoll, Sound, TallyRun, Used, DuePolls, WholePolls, RestingPolls, Credits, Ticking;
    var n := |polls|;
    NeverLost(tables, polls, limit, id, n);
    if tables[n][id].status == Pending {
      OwnRounds(tables, polls, limit, id);
      RestingBound(tables, polls, limit, id, gap);
      DueOrResting(tables, polls, limit, id, n);
      var k := 4 + TallyRun(polls, n, id, id + 1).lost;
      EnoughDue(WholePolls(polls, n), DuePolls(tables, polls, id, n), RestingPolls(tables, polls, id, n), rests,
                TallyRun(polls, n, id, id + 1).rounds, k, gap, limit);
      Drains(tables, polls, limit, id);
      assert false;
    }
  }

  lemma EnoughDue(whole: nat, due: nat, resting: nat, rests: nat, own: nat, k: nat, gap: nat, limit: nat)
    requires gap >= 1 && own <= k && whole <= due + resting && whole > k + rests
    requires resting * gap <= own * (LONGEST_WAIT + gap) && rests * gap >= k * (LONGEST_WAIT + gap)
    ensures due > k && (due - k) * limit >= (whole - k - rests) * limit
  {
    assert (k - own) * (LONGEST_WAIT + gap) >= 0;
    assert k * (LONGEST_WAIT + gap) == own * (LONGEST_WAIT + gap) + (k - own) * (LONGEST_WAIT + gap);
    assert (resting - rests) * gap == resting * gap - rests * gap <= 0;
    assert resting <= rests;
    assert (due - (whole - rests)) * limit >= 0;
    assert (due - k) * limit == (whole - k - rests) * limit + (due - (whole - rests)) * limit;
  }

  // ---------- polls that are wide apart ----------

  /** Polls that come 16 seconds after the status writes before them. */
  ghost predicate WideApart(polls: seq<Poll>) {
    forall i: nat, j: nat :: i < j < |polls| ==> WritesBy(polls[i], polls[j].now - LONGEST_WAIT)
  }

  lemma WaitBounded(topics: map<string, T.Meta>, entry: Row, input: Input)
    ensures var row := HandledRow(topics, entry, input);
            row.nextRetryAt == entry.nextRetryAt || (row.nextRetryAt.Some? && row.nextRetryAt.value <= input.now + LONGEST_WAIT)
  {
    WaitLength(topics, entry, input.env, input.now);
    hide RunRound;
  }

  lemma PollWaits(rows: Rows, p: Poll, limit: nat, rows': Rows, id: nat, time: int)
    requires Sound(rows) && IsPoll(rows, p, limit, rows') && id in rows && !Resting(rows[id], time)
    requires WritesBy(p, time - LONGEST_WAIT)
    ensures id in rows' && !Resting(rows'[id], time)
  {
    hide IsPoll, Sound, HandledRow;
    if Handles(p, id) {
      var k: nat :| k < |Taken(p)| && Taken(p)[k].id == id;
      Touched(rows, p, limit, rows', k);
      WaitBounded(p.topics, Taken(p)[k], p.inputs(k));
    } else {
      Untouched(rows, p, limit, rows', id);
    }
  }

  lemma {:induction false} WaitsAreOver(tables: seq<Rows>, polls: seq<Poll>, limit: nat, id: nat, n: nat, j: nat)
    requires IsPolling(tables, polls, limit) && WideApart(polls) && n <= j < |polls|
    requires id in tables[0] && Eligible(tables[0][id], polls[0].now)
    ensures id in tables[n] && !Resting(tables[n][id], polls[j].now)
  {
    hide IsPoll, Sound;
    if n > 0 {
      WaitsAreOver(tables, polls, limit, id, n - 1, j);
      AlwaysSound(tables, polls, limit, n - 1);
      PollWaits(tables[n - 1], polls[n - 1], limit, tables[n], id, polls[j].now);
    }
  }

  /** Polls that are wide apart find no row resting, so while the entry is pending every whole one finds
      it eligible. */
  lemma {:induction false} WideApartIsDue(tables: seq<Rows>, polls: seq<Poll>, limit: nat, id: nat, n: nat)
    requires IsPolling(tables, polls, limit) && WideApart(polls) && n <= |polls|
    requires polls != [] && id in tables[0] && Eligible(tables[0][id], polls[0].now)
    ensures RestingPolls(tables, polls, id, n) == 0
    ensures id in tables[n] && tables[n][id].status == Pending ==> WholePolls(polls, n) <= DuePolls(tables, polls, id, n)
  {
    hide IsPoll, Sound, WideApart;
    if n > 0 {
      WideApartIsDue(tables, polls, limit, id, n - 1);
      WaitsAreOver(tables, polls, limit, id, n - 1, n - 1);
    }
    if id in tables[n] && tables[n][id].status == Pending {
      DueOrResting(tables, polls, limit, id, n);
    }
  }
}
