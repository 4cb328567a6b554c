/** When a published row stays published.  The relay's status writes name the row by id only, so a row
    can leave `published` when two relays hold it, and only then. */
module OutboxPublished {
  import opened Wrappers
  import T = Topics
  import opened Outbox
  import opened OutboxSafety

  predicate IsPublished(s: State, id: nat) {
    id in s.tables.rows && s.tables.rows[id].status == Published
  }

  /** Relay q is about to write `failed` over row id. */
  predicate OwesFailed(s: State, q: RelayId, id: nat) {
    && q in s.hands && s.hands[q].batch != [] && s.hands[q].batch[0].id == id
    && s.hands[q].owed == Some(MarkFailed)
  }

  /** The one step that takes a row out of `published`; RetryFailed is not among them. */
  lemma LeftExactly(s: State, e: Event, id: nat)
    requires Enabled(s, e) && IsPublished(s, id)
    ensures IsPublished(Next(s, e), id) <==> !(e.WriteStatus? && e.up && OwesFailed(s, e.q, id))
  {
    hide RunRound;
  }

  // ---------- no entry in two hands ----------

  ghost predicate Apart(a: seq<Row>, b: seq<Row>) {
    forall x, y :: x in a && y in b ==> x.id != y.id
  }

  /** A query brings no row that another relay still holds.  The polls themselves may overlap. */
  ghost predicate NoEntryTwice(states: seq<State>, events: seq<Event>)
    requires |states| == |events| + 1
  {
    forall i: nat, p | i < |events| && events[i].Fetch? && p in states[i].hands ::
      Apart(events[i].batch, states[i].hands[p].batch)
  }

  ghost predicate HeldPending(rows: Rows, batch: seq<Row>) {
    && (forall i :: 0 <= i < |batch| ==>
          batch[i].id in rows && rows[batch[i].id] == batch[i] && batch[i].status == Pending)
    && (forall i, j :: 0 <= i < j < |batch| ==> batch[i].id < batch[j].id)
  }

  /** No two relays hold the same row; every row held is pending and as its relay read it. */
  ghost predicate HeldInv(s: State) {
    && (forall p, q :: p in s.hands && q in s.hands && p != q ==> Apart(s.hands[p].batch, s.hands[q].batch))
    && (forall q :: q in s.hands ==> HeldPending(s.tables.rows, s.hands[q].batch))
  }

  lemma ApartRest(a: seq<Row>, b: seq<Row>)
    requires Apart(a, b) && a != []
    ensures Apart(a[1..], b) && forall i :: 0 <= i < |b| ==> b[i].id != a[0].id
  {
    assert a[0] in a && forall x :: x in a[1..] ==> x in a;
    assert forall i :: 0 <= i < |b| ==> b[i] in b;
  }

  lemma ApartTurned(a: seq<Row>, b: seq<Row>)
    requires Apart(a, b)
    ensures Apart(b, a)
  {
  }

  /** A write to the first row leaves the rest, and the rows of every other relay. */
  lemma HeldRest(rows: Rows, batch: seq<Row>, v: Verdict)
    requires HeldPending(rows, batch) && batch != []
    ensures HeldPending(rows, batch[1..]) && HeldPending(Applied(rows, batch[0].id, v), batch[1..])
  {
    var rest := batch[1..];
    assert forall i :: 0 <= i < |rest| ==> rest[i] == batch[i + 1];
  }

  lemma HeldElsewhere(rows: Rows, batch: seq<Row>, id: nat, v: Verdict)
    requires HeldPending(rows, batch) && forall i :: 0 <= i < |batch| ==> batch[i].id != id
    ensures HeldPending(Applied(rows, id, v), batch)
  {
  }

  lemma WriteHeldInv(s: State, q: RelayId, up: bool)
    requires HeldInv(s) && Enabled(s, WriteStatus(q, up))
    ensures HeldInv(Next(s, WriteStatus(q, up)))
  {
    hide Apart, HeldPending, Applied;
    var s', hand := Next(s, WriteStatus(q, up)), s.hands[q];
    HeldRest(s.tables.rows, hand.batch, hand.owed.value);
    forall p | p in s.hands && p != q
      ensures HeldPending(s'.tables.rows, s.hands[p].batch)
      ensures Apart(hand.batch[1..], s.hands[p].batch) && Apart(s.hands[p].batch, hand.batch[1..])
    {
      ApartRest(hand.batch, s.hands[p].batch);
      ApartTurned(hand.batch[1..], s.hands[p].batch);
      HeldElsewhere(s.tables.rows, s.hands[p].batch, hand.batch[0].id, hand.owed.value);
    }
  }

  /** Pending rows and the entries in hand stay as they are. */
  lemma KeepsHeldInv(s: State, s': State)
    requires HeldInv(s)
    requires forall q :: q in s'.hands ==> q in s.hands && s'.hands[q].batch == s.hands[q].batch
    requires forall id :: id in s.tables.rows && s.tables.rows[id].status == Pending ==>
               id in s'.tables.rows && s'.tables.rows[id] == s.tables.rows[id]
    ensures HeldInv(s')
  {
    forall q | q in s'.hands
      ensures HeldPending(s'.tables.rows, s'.hands[q].batch)
    {
      assert HeldPending(s.tables.rows, s.hands[q].batch);
    }
  }

  lemma FetchHeldInv(s: State, q: RelayId, now: int, limit: nat, batch: seq<Row>)
    requires HeldInv(s) && Enabled(s, Fetch(q, now, limit, batch)) && forall p :: p in s.hands ==> Apart(batch, s.hands[p].batch)
    ensures HeldInv(Next(s, Fetch(q, now, limit, batch)))
  {
    hide Apart;
    forall p | p in s.hands
      ensures Apart(s.hands[p].batch, batch)
    {
      ApartTurned(batch, s.hands[p].batch);
    }
    assert HeldPending(s.tables.rows, batch);
  }

  lemma OtherHeldInv(s: State, e: Event)
    requires HeldInv(s) && Enabled(s, e) && !e.Fetch? && !e.WriteStatus?
    ensures HeldInv(Next(s, e))
  {
    hide RunRound, HeldInv;
    KeepsHeldInv(s, Next(s, e));
  }

  lemma StepHeldInv(s: State, e: Event)
    requires HeldInv(s) && Enabled(s, e)
    requires e.Fetch? ==> forall p :: p in s.hands ==> Apart(e.batch, s.hands[p].batch)
    ensures HeldInv(Next(s, e))
  {
    hide HeldInv, RunRound, Next, Apart;
    match e
    case WriteStatus(q, up) => WriteHeldInv(s, q, up);
    case Fetch(q, now, limit, batch) => FetchHeldInv(s, q, now, limit, batch);
    case _ => OtherHeldInv(s, e);
  }

  lemma {:induction false} RunHeldInv(states: seq<State>, events: seq<Event>, n: nat)
    requires IsRun(states, events) && NoEntryTwice(states, events) && n <= |events|
    ensures HeldInv(states[n])
  {
    hide Apart;
    if n > 0 {
      RunHeldInv(states, events, n - 1);
      StepHeldInv(states[n - 1], events[n - 1]);
    }
  }

  lemma StaysPublished(s: State, e: Event, id: nat)
    requires HeldInv(s) && Enabled(s, e) && IsPublished(s, id)
    ensures IsPublished(Next(s, e), id)
  {
    hide Apart, Next;
    LeftExactly(s, e, id);
    if e.WriteStatus? {
      assert HeldPending(s.tables.rows, s.hands[e.q].batch);
    }
  }

  /** On every run in which no entry is in two hands at once, whatever fails or crashes and however
      polls overlap, `published` is never left. */
  lemma {:induction false} PublishedForEver(states: seq<State>, events: seq<Event>, i: nat, j: nat, id: nat)
    requires IsRun(states, events) && NoEntryTwice(states, events) && i <= j <= |events|
    requires IsPublished(states[i], id)
    ensures IsPublished(states[j], id)
    decreases j
  {
    hide Apart, IsPublished, HeldInv, Next;
    if i < j {
      PublishedForEver(states, events, i, j - 1, id);
      RunHeldInv(states, events, j - 1);
      StaysPublished(states[j - 1], events[j - 1], id);
    }
  }

  // ---------- a single relay ----------

  /** Every relay step of the run is taken by relay q. */
  ghost predicate OnlyRelay(events: seq<Event>, q: RelayId) {
    forall i :: 0 <= i < |events| && (events[i].Fetch? || events[i].PublishRound? || events[i].WriteStatus? || events[i].Drop?) ==>
      events[i].q == q
  }

  lemma {:induction false} OnlyHand(states: seq<State>, events: seq<Event>, q: RelayId, n: nat)
    requires IsRun(states, events) && OnlyRelay(events, q) && n <= |events|
    ensures states[n].hands.Keys <= {q}
  {
    hide RunRound;
    if n > 0 {
      OnlyHand(states, events, q, n - 1);
      assert states[n] == Next(states[n - 1], events[n - 1]);
    }
  }

  /** A single relay holds nothing while it queries, so it never takes a row out of `published`. */
  lemma SingleRelay(states: seq<State>, events: seq<Event>, q: RelayId, i: nat, j: nat, id: nat)
    requires IsRun(states, events) && OnlyRelay(events, q) && i <= j <= |events|
    requires IsPublished(states[i], id)
    ensures IsPublished(states[j], id)
    ensures NoEntryTwice(states, events)
  {
    forall k: nat | k < |events| && events[k].Fetch?
      ensures states[k].hands.Keys == {}
    {
      OnlyHand(states, events, q, k);
      assert Enabled(states[k], events[k]);
    }
    PublishedForEver(states, events, i, j, id);
  }

  // ---------- two relays ----------

  lemma RoundStep(s: State, q: RelayId, env: nat -> Pass, row: Row, v: Verdict)
    requires q in s.hands && s.hands[q] == Hand([row], None) && RunRound(s.topics, row, env, 0).verdict == v
    ensures var s' := Next(s, PublishRound(q, env, 0));
            s'.hands == s.hands[q := Hand([row], Some(v))] && s'.tables == s.tables && s'.topics == s.topics
  {
    hide RunRound, PermanentCause;
  }

  lemma WriteStep(s: State, q: RelayId, row: Row, v: Verdict)
    requires q in s.hands && s.hands[q] == Hand([row], Some(v)) && row.id in s.tables.rows
    ensures var s' := Next(s, WriteStatus(q, true));
            && s'.hands == s.hands[q := Hand([], None)] && s'.topics == s.topics
            && s'.tables.rows == Applied(s.tables.rows, row.id, v)
  {
    assert [row][1..] == [];
  }

  lemma Extend(states: seq<State>, events: seq<Event>, e: Event) returns (states': seq<State>, events': seq<Event>, s: State)
    requires IsRun(states, events) && Enabled(states[|events|], e)
    ensures IsRun(states', events') && events' == events + [e] && states' == states + [s]
    ensures states'[|events'|] == s == Next(states[|events|], e)
  {
    s := Next(states[|events|], e);
    states', events' := states + [s], events + [e];
  }

  /** A topic is registered, a row written, and both relays fetch it. */
  lemma OverlapStarts(row: Row, meta: T.Meta) returns (states: seq<State>, events: seq<Event>, s: State)
    requires row == NewRow(row.id, "t", "k", OtherEvent("x"), map[])
    ensures IsRun(states, events) && |events| == 4 && states[4] == s
    ensures s.tables.rows == map[row.id := row] && WellWritten(s.topics, row)
    ensures s.hands == map[0 := Hand([row], None), 1 := Hand([row], None)]
  {
    assert "t" != TOPIC_ORDER_CREATED by { assert |"t"| != |TOPIC_ORDER_CREATED|; }
    states, events, s := [Start()], [], Start();
    states, events, s := Extend(states, events, RegisterTopic("t", meta));
    states, events, s := Extend(states, events, WriteOther(row.id, "t", "k", "x", map[]));
    assert s.tables.rows == map[row.id := row];
    assert IsBatch(s.tables.rows, 0, 1, [row]);
    hide IsBatch, IsRun;
    states, events, s := Extend(states, events, Fetch(0, 0, 1, [row]));
    states, events, s := Extend(states, events, Fetch(1, 0, 1, [row]));
  }

  /** Two relays that poll the same database: both fetch a pending row; the first publishes it and
      says so; the second then meets a permanent error and overwrites `published` with `failed`. */
  lemma OverlapLosesPublished(id: nat, meta: T.Meta) returns (states: seq<State>, events: seq<Event>)
    ensures IsRun(states, events) && |events| == 8
    ensures IsPublished(states[6], id)
    ensures id in states[8].tables.rows && states[8].tables.rows[id].status == Failed
  {
    hide IsRun, RunRound, Next;
    var row := NewRow(id, "t", "k", OtherEvent("x"), map[]);
    var s;
    states, events, s := OverlapStarts(row, meta);
    AcceptedAtOnce(s.topics, row, 0);
    PermanentErrorsRepeat(s.topics, row, 0);
    RoundStep(s, 0, ACCEPTS, row, MarkPublished);
    states, events, s := Extend(states, events, PublishRound(0, ACCEPTS, 0));
    WriteStep(s, 0, row, MarkPublished);
    states, events, s := Extend(states, events, WriteStatus(0, true));
    RoundStep(s, 1, REFUSES, row, MarkFailed);
    states, events, s := Extend(states, events, PublishRound(1, REFUSES, 0));
    WriteStep(s, 1, row, MarkFailed);
    states, events, s := Extend(states, events, WriteStatus(1, true));
  }
}
