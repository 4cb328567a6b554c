/** The transactional outbox and its relay: an order and its event are committed together, a relay
    polls pending rows and publishes them with two nested retry loops. */
module Outbox {
  import opened Wrappers
  import R = Retry
  import T = Topics

  // ---------- rows ----------

  datatype Order = Order(id: nat, user: nat, total: real, currency: string, itemCount: nat)

  datatype Payload = OrderCreated(order: Order) | OtherEvent(text: string)

  /** The headers column: absent, encoded pairs, or text that is not what WriteOutbox encodes. */
  datatype Headers = NoHeaders | Encoded(pairs: map<string, string>) | Malformed

  datatype Status = Pending | Published | Failed

  datatype Row = Row(id: nat, topic: string, key: string, payload: Payload, headers: Headers,
                     status: Status, retryCount: nat, nextRetryAt: Option<int>)

  type Rows = map<nat, Row>

  /** A message as the broker stores it. */
  datatype Record = Record(topic: string, key: string, payload: Payload, pairs: map<string, string>)

  function RecordOf(row: Row): Record {
    Record(row.topic, row.key, row.payload, if row.headers.Encoded? then row.headers.pairs else map[])
  }

  const TOPIC_ORDER_CREATED := "order.order.created"

  function NewRow(id: nat, topic: string, key: string, payload: Payload, pairs: map<string, string>): Row {
    Row(id, topic, key, payload, if pairs == map[] then NoHeaders else Encoded(pairs), Pending, 0, None)
  }

  /** A written row is what its writer handed over, fresh and pending. */
  lemma WrittenAsGiven(id: nat, topic: string, key: string, payload: Payload, pairs: map<string, string>)
    ensures var row := NewRow(id, topic, key, payload, pairs);
            && row.id == id && row.topic == topic && row.key == key && row.payload == payload
            && (row.headers == NoHeaders <==> pairs == map[]) && (row.headers != NoHeaders ==> row.headers == Encoded(pairs))
            && row.status == Pending && row.retryCount == 0 && row.nextRetryAt == None
  {
  }

  // ---------- one publishing round of the relay ----------

  /** Milliseconds. */
  const BACKOFF_CAP := 300_000
  const MAX_ROUNDS := 5

  /** What underlies a failed send: a cancelled context, a network error, an HTTP status, or a Kafka
      error listed as permanent. */
  datatype Cause = Cause(canceled: bool, network: bool, status: Option<int>, permanent: bool)

  /** A send that fails may still have reached the broker. */
  datatype Send = Accepted | Rejected(cause: Cause, appended: bool)

  /** One pass of the inner retry loop. */
  datatype Pass = Pass(doneBefore: bool, send: Send, doneAfter: bool)

  const VALIDATION_ERROR := R.Err(false, false, None, Some(false))
  const HEADER_ERROR := R.Err(false, false, None, None)

  /** Publish: the key is validated first; a failed send becomes a classified ProduceError. */
  function PublishOutcome(valid: bool, send: Send): Option<R.Err> {
    if !valid then Some(VALIDATION_ERROR)
    else
      match send
      case Accepted => None
      case Rejected(c, _) => Some(R.Err(c.canceled, c.network, c.status, Some(!c.permanent)))
  }

  function Attempts(valid: bool, env: nat -> Pass): nat -> R.Attempt {
    (i: nat) => R.Attempt(env(i).doneBefore, PublishOutcome(valid, env(i).send), env(i).doneAfter)
  }

  /** How many of the first n calls of Publish left a record in the broker. */
  function Appended(valid: bool, env: nat -> Pass, n: nat): nat {
    if n == 0 || !valid then 0
    else Appended(valid, env, n - 1) + if env(n - 1).send.Accepted? || env(n - 1).send.appended then 1 else 0
  }

  function Pow2(n: nat): nat {
    if n == 0 then 1 else 2 * Pow2(n - 1)
  }

  /** 2^count seconds, at most five minutes. */
  function Backoff(count: nat): nat {
    if Pow2(count) * 1000 > BACKOFF_CAP then BACKOFF_CAP else Pow2(count) * 1000
  }

  /** The status write that follows a round. */
  datatype Verdict = MarkPublished | MarkFailed | Reschedule(count: nat, at: int)

  function Judge(entry: Row, err: Option<R.Err>, now: int): Verdict {
    if err == None then MarkPublished
    else if err.value.produce == Some(false) then MarkFailed
    else if entry.retryCount + 1 >= MAX_ROUNDS then MarkFailed
    else Reschedule(entry.retryCount + 1, now + Backoff(entry.retryCount + 1))
  }

  datatype Round = Round(err: Option<R.Err>, calls: nat, appended: nat, verdict: Verdict)

  /** publishWithRetry up to the status write. */
  function RunRound(topics: map<string, T.Meta>, entry: Row, env: nat -> Pass, now: int): Round {
    if entry.headers == Malformed then Round(Some(HEADER_ERROR), 0, 0, MarkFailed)
    else
      var valid := T.Validate(topics, entry.topic, entry.key) == None;
      var (err, calls) := R.DoResult(R.DEFAULT_MAX_RETRIES, Attempts(valid, env));
      Round(err, calls, Appended(valid, env, calls), Judge(entry, err, now))
  }

  /** The UPDATE by primary key. */
  function Applied(rows: Rows, id: nat, v: Verdict): Rows {
    if id !in rows then rows
    else
      match v
      case MarkPublished => rows[id := rows[id].(status := Published)]
      case MarkFailed => rows[id := rows[id].(status := Failed)]
      case Reschedule(count, at) => rows[id := rows[id].(retryCount := count, nextRetryAt := Some(at))]
  }

  /** RetryFailed. */
  function Reset(rows: Rows): Rows {
    map id | id in rows ::
      if rows[id].status == Failed then rows[id].(status := Pending, retryCount := 0, nextRetryAt := None) else rows[id]
  }

  /** Publish succeeded in one of the first n calls. */
  ghost predicate Accepts(topics: map<string, T.Meta>, entry: Row, env: nat -> Pass, n: nat) {
    T.Validate(topics, entry.topic, entry.key) == None && exists i: nat :: i < n && env(i).send.Accepted?
  }

  /** What a status write leaves of a row: only its status, or its count and wait, change, and no other
      row does. */
  lemma AppliedExactly(rows: Rows, id: nat, v: Verdict, k: nat)
    requires k in rows
    ensures Applied(rows, id, v).Keys == rows.Keys
    ensures var (was, now) := (rows[k], Applied(rows, id, v)[k]);
            && now.id == was.id && now.topic == was.topic && now.key == was.key && now.payload == was.payload
            && now.headers == was.headers
            && (k != id ==> now == was)
            && (k == id && v == MarkPublished ==> now.status == Published && now.retryCount == was.retryCount && now.nextRetryAt == was.nextRetryAt)
            && (k == id && v == MarkFailed ==> now.status == Failed && now.retryCount == was.retryCount && now.nextRetryAt == was.nextRetryAt)
            && (k == id && v.Reschedule? ==> now.status == was.status && now.retryCount == v.count && now.nextRetryAt == Some(v.at))
  {
  }

  /** What RetryFailed leaves: failed rows fresh and pending with their message, the others as they were. */
  lemma ResetFresh(rows: Rows, k: nat)
    requires k in rows
    ensures Reset(rows).Keys == rows.Keys
    ensures var (was, now) := (rows[k], Reset(rows)[k]);
            && (was.status != Failed ==> now == was)
            && (was.status == Failed ==> now == Row(was.id, was.topic, was.key, was.payload, was.headers, Pending, 0, None))
  {
  }

  /** What a round does, whatever the sends do. */
  lemma RoundOutcome(topics: map<string, T.Meta>, entry: Row, env: nat -> Pass, now: int)
    ensures var r := RunRound(topics, entry, env, now);
            && r.calls <= R.DEFAULT_MAX_RETRIES + 1
            && (r.verdict == MarkPublished <==> r.err == None)
            && (r.err == None <==> Accepts(topics, entry, env, r.calls))
            && (r.err == None ==> r.appended >= 1)
            && (r.verdict.Reschedule? ==> r.verdict.count == entry.retryCount + 1 < MAX_ROUNDS)
            && (r.err.Some? && r.verdict == MarkFailed ==>
                  || entry.headers == Malformed
                  || T.Validate(topics, entry.topic, entry.key) != None
                  || entry.retryCount + 1 >= MAX_ROUNDS
                  || exists i: nat :: i < r.calls && env(i).send.Rejected? && env(i).send.cause.permanent)
  {
    if entry.headers != Malformed {
      var valid := T.Validate(topics, entry.topic, entry.key) == None;
      var attempts := Attempts(valid, env);
      R.DoExact(R.DEFAULT_MAX_RETRIES, attempts);
      var r := RunRound(topics, entry, env, now);
      if r.calls >= 1 {
        var last := r.calls - 1;
        assert attempts(last).outcome == PublishOutcome(valid, env(last).send);
      }
    }
  }

  /** The longest wait a round can set, after the fourth error. */
  const LONGEST_WAIT := 16_000

  /** A rescheduled entry waits 2, 4, 8 or 16 seconds; the cap of five minutes is never reached. */
  lemma WaitLength(topics: map<string, T.Meta>, entry: Row, env: nat -> Pass, now: int)
    ensures var v := RunRound(topics, entry, env, now).verdict;
            v.Reschedule? ==>
              && 1 <= v.count == entry.retryCount + 1 <= 4
              && v.at - now == [2_000, 4_000, 8_000, 16_000][v.count - 1] <= LONGEST_WAIT
              && Pow2(v.count) * 1000 < 300_000 == BACKOFF_CAP
  {
    hide R.DoResult;
    assert Pow2(1) == 2 && Pow2(2) == 4 && Pow2(3) == 8 && Pow2(4) == 16;
    var v := RunRound(topics, entry, env, now).verdict;
    if v.Reschedule? {
      assert v.count == 1 || v.count == 2 || v.count == 3 || v.count == 4;
    }
  }

  /** When a round calls Publish again: after every error that retry.Do finds worth retrying, unless it
      was the fourth call or the context ended.  Whether the broker's error is permanent plays no part. */
  lemma CallsAgain(topics: map<string, T.Meta>, entry: Row, env: nat -> Pass, now: int, i: nat)
    requires i < RunRound(topics, entry, env, now).calls
    ensures var valid := T.Validate(topics, entry.topic, entry.key) == None;
            var err := PublishOutcome(valid, env(i).send);
            i + 1 < RunRound(topics, entry, env, now).calls
            <==> err.Some? && R.IsRetryable(err.value) && i < R.DEFAULT_MAX_RETRIES && !env(i).doneAfter && !env(i + 1).doneBefore
  {
    hide R.DoResult, R.IsRetryable, PublishOutcome, Judge, R.Decided;
    var valid := T.Validate(topics, entry.topic, entry.key) == None;
    var attempts := Attempts(valid, env);
    R.DoExact(R.DEFAULT_MAX_RETRIES, attempts);
    assert RunRound(topics, entry, env, now).calls == R.DoResult(R.DEFAULT_MAX_RETRIES, attempts).1;
    assert R.Continues(attempts, i) <==>
      !attempts(i).doneBefore && attempts(i).outcome.Some? && R.IsRetryable(attempts(i).outcome.value) && !attempts(i).doneAfter;
    assert i + 1 < RunRound(topics, entry, env, now).calls <==>
      R.Continues(attempts, i) && i < R.DEFAULT_MAX_RETRIES && !attempts(i + 1).doneBefore;
  }

  const ACCEPTS: nat -> Pass := (i: nat) => Pass(false, Accepted, false)
  const REFUSES: nat -> Pass := (i: nat) => Pass(false, Rejected(Cause(false, false, None, true), false), false)

  /** A broker that refuses a message for good is asked four times before the row is failed. */
  lemma PermanentErrorsRepeat(topics: map<string, T.Meta>, entry: Row, now: int)
    requires entry.headers != Malformed && T.Validate(topics, entry.topic, entry.key) == None
    ensures RunRound(topics, entry, REFUSES, now).calls == 4
    ensures RunRound(topics, entry, REFUSES, now).verdict == MarkFailed
  {
    var attempts := Attempts(true, REFUSES);
    var e := Some(R.Err(false, false, None, Some(false)));
    assert R.DoFrom(3, attempts, 3, e) == (e, 4);
    assert R.DoFrom(3, attempts, 2, e) == (e, 4);
    assert R.DoFrom(3, attempts, 1, e) == (e, 4);
    assert R.DoResult(3, attempts) == (e, 4);
  }

  lemma AcceptedAtOnce(topics: map<string, T.Meta>, entry: Row, now: int)
    requires entry.headers != Malformed && T.Validate(topics, entry.topic, entry.key) == None
    ensures RunRound(topics, entry, ACCEPTS, now).verdict == MarkPublished
  {
    assert R.DoResult(3, Attempts(true, ACCEPTS)) == (None, 1);
  }

  /** A round's calls that reached the broker: each accepted one, and each refused one that was stored
      all the same, while the key is valid. */
  lemma AppendedExactly(topics: map<string, T.Meta>, entry: Row, env: nat -> Pass, now: int)
    ensures var r := RunRound(topics, entry, env, now);
            r.appended == if T.Validate(topics, entry.topic, entry.key) != None then 0
                          else |set i: nat | i < r.calls && (env(i).send.Accepted? || env(i).send.appended)|
  {
    if entry.headers == Malformed {
      AppendedCount(env, 0);
    } else {
      AppendedCount(env, RunRound(topics, entry, env, now).calls);
    }
  }

  lemma {:induction false} AppendedCount(env: nat -> Pass, n: nat)
    ensures Appended(true, env, n) == |set i: nat | i < n && (env(i).send.Accepted? || env(i).send.appended)|
  {
    var all := set i: nat | i < n && (env(i).send.Accepted? || env(i).send.appended);
    if n == 0 {
      assert all == {};
    } else {
      AppendedCount(env, n - 1);
      var before := set i: nat | i < n - 1 && (env(i).send.Accepted? || env(i).send.appended);
      assert all == before + if env(n - 1).send.Accepted? || env(n - 1).send.appended then {n - 1} else {};
    }
  }

  // ---------- the relay's query ----------

  predicate Eligible(row: Row, now: int) {
    row.status == Pending && (row.nextRetryAt == None || row.nextRetryAt.value <= now)
  }

  /** The answer of the poll query: the eligible rows with the lowest ids, in id order. */
  ghost predicate IsBatch(rows: Rows, now: int, limit: nat, batch: seq<Row>) {
    && |batch| <= limit
    && (forall i, j :: 0 <= i < j < |batch| ==> batch[i].id < batch[j].id)
    && (forall i :: 0 <= i < |batch| ==> batch[i].id in rows && rows[batch[i].id] == batch[i] && Eligible(batch[i], now))
    && (forall id :: id in rows && Eligible(rows[id], now) ==>
          || rows[id] in batch
          || (|batch| == limit && forall i :: 0 <= i < |batch| ==> batch[i].id < id))
  }

  ghost predicate Keyed(rows: Rows) {
    forall id :: id in rows ==> rows[id].id == id
  }

  /** One entry of a batch: what its sends do, the time of its status write, and whether that gets
      through. */
  datatype Input = Input(env: nat -> Pass, now: int, writeUp: bool)

  function HandleOne(rows: Rows, topics: map<string, T.Meta>, entry: Row, input: Input): Rows {
    if input.writeUp then Applied(rows, entry.id, RunRound(topics, entry, input.env, input.now).verdict) else rows
  }

  /** The entries of a batch, one after the other. */
  function HandleAll(rows: Rows, topics: map<string, T.Meta>, batch: seq<Row>, inputs: nat -> Input): Rows {
    if batch == [] then rows
    else
      var n := |batch| - 1;
      HandleOne(HandleAll(rows, topics, batch[..n], inputs), topics, batch[n], inputs(n))
  }

  /** What the sends of those entries leave in the broker. */
  function SentAll(topics: map<string, T.Meta>, batch: seq<Row>, inputs: nat -> Input): seq<Record> {
    if batch == [] then []
    else
      var n := |batch| - 1;
      SentAll(topics, batch[..n], inputs)
      + Copies(RecordOf(batch[n]), RunRound(topics, batch[n], inputs(n).env, inputs(n).now).appended)
  }

  lemma OneMoreEntry(rows: Rows, topics: map<string, T.Meta>, batch: seq<Row>, inputs: nat -> Input, i: nat)
    requires i < |batch|
    ensures HandleAll(rows, topics, batch[..i + 1], inputs)
            == HandleOne(HandleAll(rows, topics, batch[..i], inputs), topics, batch[i], inputs(i))
    ensures SentAll(topics, batch[..i + 1], inputs)
            == SentAll(topics, batch[..i], inputs)
               + Copies(RecordOf(batch[i]), RunRound(topics, batch[i], inputs(i).env, inputs(i).now).appended)
  {
    hide RunRound, HandleOne, RecordOf;
    assert batch[..i + 1][..i] == batch[..i];
  }

  function Copies(r: Record, n: nat): seq<Record> {
    seq(n, i => r)
  }

  lemma NoEntries(rows: Rows, topics: map<string, T.Meta>, inputs: nat -> Input)
    ensures HandleAll(rows, topics, [], inputs) == rows && SentAll(topics, [], inputs) == []
  {
  }

  /** The database tables the relay and the order service share, and the topic registry. */
  class Database {
    var orders: map<nat, Order>
    var rows: Rows
    var nextId: nat
    var topics: map<string, T.Meta>

    ghost predicate Valid()
      reads this
    {
      Keyed(rows) && forall id :: id in rows ==> id < nextId
    }

    constructor (topics: map<string, T.Meta>)
      ensures Valid() && orders == map[] && rows == map[] && this.topics == topics
    {
      orders, rows, nextId := map[], map[], 1;
      this.topics := topics;
    }

    /** SELECT ... ORDER BY id ASC LIMIT. */
    method Query(now: int, limit: nat) returns (batch: seq<Row>)
      requires Valid()
      ensures IsBatch(rows, now, limit, batch)
      ensures forall i :: 0 <= i < |batch| ==>
                && batch[i].id in rows && rows[batch[i].id] == batch[i] && batch[i].status == Pending
                && (batch[i].nextRetryAt.Some? ==> batch[i].nextRetryAt.value <= now)
      ensures forall id | id in rows && |batch| < limit && rows[id].status == Pending ::
                rows[id] in batch || (rows[id].nextRetryAt.Some? && rows[id].nextRetryAt.value > now)
    {
      batch := [];
      var id := 0;
      while id < nextId && |batch| < limit
        invariant 0 <= id <= nextId && |batch| <= limit
        invariant forall i, j :: 0 <= i < j < |batch| ==> batch[i].id < batch[j].id
        invariant forall i :: 0 <= i < |batch| ==>
                    batch[i].id in rows && rows[batch[i].id] == batch[i] && Eligible(batch[i], now) && batch[i].id < id
        invariant forall k :: k in rows && k < id && Eligible(rows[k], now) ==> rows[k] in batch
      {
        if id in rows && Eligible(rows[id], now) {
          batch := batch + [rows[id]];
        }
        id := id + 1;
      }
    }

    /** One UPDATE; a failing write is only logged. */
    method Update(id: nat, v: Verdict, up: bool)
      requires Valid()
      modifies this`rows
      ensures rows == (if up then Applied(old(rows), id, v) else old(rows)) && Valid()
    {
      if up && id in rows {
        match v
        case MarkPublished => rows := rows[id := rows[id].(status := Published)];
        case MarkFailed => rows := rows[id := rows[id].(status := Failed)];
        case Reschedule(count, at) => rows := rows[id := rows[id].(retryCount := count, nextRetryAt := Some(at))];
      }
    }
  }

  class Relay {
    const db: Database
    const batchSize: nat
    var log: seq<Record>  // what the broker holds

    constructor (db: Database, batchSize: int)
      ensures this.db == db && log == [] && this.batchSize == if batchSize <= 0 then 100 else batchSize
      ensures this.batchSize >= 1
    {
      this.db := db;
      this.batchSize := if batchSize <= 0 then 100 else batchSize;
      log := [];
    }

    method PublishWithRetry(entry: Row, input: Input) returns (round: Round)
      requires db.Valid()
      modifies this`log, db`rows
      ensures db.Valid()
      ensures round == RunRound(db.topics, entry, input.env, input.now)
      ensures db.rows == HandleOne(old(db.rows), db.topics, entry, input)
      ensures log == old(log) + Copies(RecordOf(entry), round.appended)
      ensures |log| == |old(log)| + round.appended && old(log) <= log
      ensures forall i :: |old(log)| <= i < |log| ==>
                && log[i].topic == entry.topic && log[i].key == entry.key && log[i].payload == entry.payload
                && log[i].pairs == match entry.headers case Encoded(pairs) => pairs case _ => map[]
    {
      if entry.headers == Malformed {
        db.Update(entry.id, MarkFailed, input.writeUp);
        return Round(Some(HEADER_ERROR), 0, 0, MarkFailed);
      }
      var valid := T.Validate(db.topics, entry.topic, entry.key) == None;
      var err, calls := R.Do(R.DEFAULT_MAX_RETRIES, Attempts(valid, input.env));
      var appended := Appended(valid, input.env, calls);
      log := log + Copies(RecordOf(entry), appended);
      if err.Some? {
        if err.value.produce == Some(false) {
          db.Update(entry.id, MarkFailed, input.writeUp);
          return Round(err, calls, appended, MarkFailed);
        }
        var verdict := ScheduleRetry(entry, input.now, input.writeUp);
        return Round(err, calls, appended, verdict);
      }
      db.Update(entry.id, MarkPublished, input.writeUp);
      round := Round(err, calls, appended, MarkPublished);
    }

    method ScheduleRetry(entry: Row, now: int, up: bool) returns (verdict: Verdict)
      requires db.Valid()
      modifies db`rows
      ensures verdict == if entry.retryCount + 1 >= MAX_ROUNDS then MarkFailed
                         else Reschedule(entry.retryCount + 1, now + Backoff(entry.retryCount + 1))
      ensures db.Valid() && db.rows == if up then Applied(old(db.rows), entry.id, verdict) else old(db.rows)
    {
      var count := entry.retryCount + 1;
      if count >= MAX_ROUNDS {
        db.Update(entry.id, MarkFailed, up);
        return MarkFailed;
      }
      var delay := Pow2(count) * 1000;
      if delay > BACKOFF_CAP {
        delay := BACKOFF_CAP;
      }
      verdict := Reschedule(count, now + delay);
      db.Update(entry.id, verdict, up);
    }

    /** One poll; the context may end before entry number `cancelAt`. */
    method Poll(now: int, queryUp: bool, inputs: nat -> Input, cancelAt: nat) returns (ok: bool, ghost batch: seq<Row>, ghost done: nat)
      requires db.Valid()
      modifies this`log, db`rows
      ensures db.Valid() && ok == queryUp
      ensures !queryUp ==> db.rows == old(db.rows) && log == old(log)
      ensures queryUp ==>
                && IsBatch(old(db.rows), now, batchSize, batch)
                && done == (if cancelAt < |batch| then cancelAt else |batch|)
                && db.rows == HandleAll(old(db.rows), db.topics, batch[..done], inputs)
                && log == old(log) + SentAll(db.topics, batch[..done], inputs)
    {
      hide RunRound, HandleOne, RecordOf, IsBatch, HandleAll, SentAll;
      batch, done := [], 0;
      if !queryUp {
        return false, batch, done;
      }
      var entries := db.Query(now, batchSize);
      batch := entries;
      var i := 0;
      NoEntries(db.rows, db.topics, inputs);
      assert entries[..0] == [];
      while i < |entries| && i < cancelAt
        invariant 0 <= i <= |entries| && i <= cancelAt
        invariant db.Valid() && db.rows == HandleAll(old(db.rows), db.topics, entries[..i], inputs)
        invariant log == old(log) + SentAll(db.topics, entries[..i], inputs)
      {
        OneMoreEntry(old(db.rows), db.topics, entries, inputs, i);
        var round := PublishWithRetry(entries[i], inputs(i));
        i := i + 1;
      }
      done := i;
      ok := true;
    }

    method RetryFailed(up: bool) returns (count: Option<nat>)
      requires db.Valid()
      modifies db`rows
      ensures db.Valid() && db.rows == if up then Reset(old(db.rows)) else old(db.rows)
      ensures count == if up then Some(|set id | id in old(db.rows) && old(db.rows)[id].status == Failed|) else None
    {
      if !up {
        return None;
      }
      var failed := set id | id in db.rows && db.rows[id].status == Failed;
      db.rows := Reset(db.rows);
      count := Some(|failed|);
    }
  }
}
