/** Safety of outbox and relay over whole runs: any number of relays, any interleaving with order
    creation, other outbox writers and RetryFailed, a fault or a crash possible at every step. */
module OutboxSafety {
  import opened Wrappers
  import T = Topics
  import X = Transaction
  import opened Outbox
  import opened Strings

  type RelayId = nat

  /** The entries a relay still holds from its last query, and the status write it owes for the first. */
  datatype Hand = Hand(batch: seq<Row>, owed: Option<Verdict>)

  datatype State = State(
    tables: X.Tables,
    topics: map<string, T.Meta>,
    hands: map<RelayId, Hand>,
    log: seq<Record>,        // what the broker holds
    acked: set<nat>,         // rows for which some Publish returned success
    errors: map<nat, nat>,   // how many rounds of a row ended in an error
    permanent: set<nat>)     // rows with a round that met a permanent broker error

  datatype Event =
    | RegisterTopic(topic: string, meta: T.Meta)
    | CreateOrder(order: Order, id: nat, script: X.Script)
    | WriteOther(id: nat, topic: string, key: string, text: string, pairs: map<string, string>)
    | Fetch(q: RelayId, now: int, limit: nat, batch: seq<Row>)
    | PublishRound(q: RelayId, env: nat -> Pass, now: int)
    | WriteStatus(q: RelayId, up: bool)
    | Drop(q: RelayId)        // the context ends, or the relay's process dies
    | RetryAllFailed

  predicate FreshRow(s: State, id: nat) {
    id !in s.tables.rows
  }

  ghost predicate Enabled(s: State, e: Event) {
    match e
    case CreateOrder(_, id, _) => FreshRow(s, id)
    case WriteOther(id, topic, _, _, _) => FreshRow(s, id) && topic != TOPIC_ORDER_CREATED
    case Fetch(q, now, limit, batch) => q !in s.hands && IsBatch(s.tables.rows, now, limit, batch)
    case PublishRound(q, _, _) => q in s.hands && s.hands[q].batch != [] && s.hands[q].owed == None
    case WriteStatus(q, _) => q in s.hands && s.hands[q].batch != [] && s.hands[q].owed.Some?
    case Drop(q) => q in s.hands
    case _ => true
  }

  function ErrorsOf(s: State, id: nat): nat {
    if id in s.errors then s.errors[id] else 0
  }

  ghost predicate PermanentCause(r: Round, env: nat -> Pass) {
    exists i: nat :: i < r.calls && env(i).send.Rejected? && env(i).send.cause.permanent
  }

  /** A publishing round of relay q on the first entry it holds. */
  ghost function Published1(s: State, q: RelayId, env: nat -> Pass, now: int): State
    requires q in s.hands && s.hands[q].batch != []
  {
    var entry := s.hands[q].batch[0];
    var r := RunRound(s.topics, entry, env, now);
    s.(hands := s.hands[q := s.hands[q].(owed := Some(r.verdict))],
       log := s.log + Copies(RecordOf(entry), r.appended),
       acked := if r.err == None then s.acked + {entry.id} else s.acked,
       errors := if r.err == None then s.errors else s.errors[entry.id := ErrorsOf(s, entry.id) + 1],
       permanent := if PermanentCause(r, env) then s.permanent + {entry.id} else s.permanent)
  }

  ghost function Next(s: State, e: Event): State
    requires Enabled(s, e)
  {
    match e
    case RegisterTopic(topic, meta) => s.(topics := T.Registered(s.topics, topic, meta))
    case CreateOrder(order, id, script) => s.(tables := X.Creation(s.tables, s.topics, order, id, script).0)
    case WriteOther(id, topic, key, text, pairs) =>
      if T.Validate(s.topics, topic, key) != None then s
      else s.(tables := s.tables.(rows := s.tables.rows[id := NewRow(id, topic, key, OtherEvent(text), pairs)]))
    case Fetch(q, _, _, batch) => s.(hands := s.hands[q := Hand(batch, None)])
    case PublishRound(q, env, now) => Published1(s, q, env, now)
    case WriteStatus(q, up) =>
      var hand := s.hands[q];
      s.(tables := if up then s.tables.(rows := Applied(s.tables.rows, hand.batch[0].id, hand.owed.value)) else s.tables,
         hands := s.hands[q := Hand(hand.batch[1..], None)])
    case Drop(q) => s.(hands := s.hands - {q})
    case RetryAllFailed => s.(tables := s.tables.(rows := Reset(s.tables.rows)))
  }

  function Start(): State {
    State(X.Tables(map[], map[]), map[], map[], [], {}, map[], {})
  }

  ghost predicate IsRun(states: seq<State>, events: seq<Event>) {
    && |states| == |events| + 1
    && states[0] == Start()
    && forall i: nat :: i < |events| ==> Enabled(states[i], events[i]) && states[i + 1] == Next(states[i], events[i])
  }

  // ---------- rows are only added, and keep their message ----------

  predicate SameMessage(a: Row, b: Row) {
    a.id == b.id && a.topic == b.topic && a.key == b.key && a.payload == b.payload && a.headers == b.headers
  }

  ghost predicate Preserves(rows: Rows, rows': Rows) {
    forall id :: id in rows ==> id in rows' && SameMessage(rows[id], rows'[id])
  }

  lemma StepPreserves(s: State, e: Event)
    requires Enabled(s, e)
    ensures Preserves(s.tables.rows, Next(s, e).tables.rows)
    ensures T.Extends(Next(s, e).topics, s.topics)
    ensures s.log <= Next(s, e).log
    ensures s.acked <= Next(s, e).acked && s.permanent <= Next(s, e).permanent
    ensures forall id :: ErrorsOf(s, id) <= ErrorsOf(Next(s, e), id)
  {
    hide RunRound;
  }

  // ---------- one created-event row per committed order ----------

  predicate IsCreatedRow(row: Row) {
    row.topic == TOPIC_ORDER_CREATED
  }

  /** A row written by WriteOutbox: its headers decode and its key is valid. */
  predicate WellWritten(topics: map<string, T.Meta>, row: Row) {
    row.headers != Malformed && T.Validate(topics, row.topic, row.key) == None
  }

  /** No two created-event rows carry the same key. */
  ghost predicate OneRowPerKey(rows: Rows) {
    forall a, b | a in rows && b in rows && IsCreatedRow(rows[a]) && IsCreatedRow(rows[b]) && rows[a].key == rows[b].key :: a == b
  }

  ghost predicate RowsInv(s: State) {
    && Keyed(s.tables.rows)
    && (forall id :: id in s.tables.rows ==> WellWritten(s.topics, s.tables.rows[id]))
    && (forall id :: id in s.tables.rows && IsCreatedRow(s.tables.rows[id]) ==>
          var row := s.tables.rows[id];
          && row.payload.OrderCreated? && row.key == Itoa(row.payload.order.id) && row.headers == NoHeaders
          && row.payload.order.id in s.tables.orders && s.tables.orders[row.payload.order.id] == row.payload.order)
    && OneRowPerKey(s.tables.rows)
    && (forall o :: o in s.tables.orders ==> HasRow(s.tables.rows, o))
  }

  ghost predicate HasRow(rows: Rows, order: nat) {
    exists id :: id in rows && IsCreatedRow(rows[id]) && rows[id].payload.OrderCreated? && rows[id].payload.order.id == order
  }

  lemma HasRowStays(rows: Rows, rows': Rows, order: nat)
    requires HasRow(rows, order) && Preserves(rows, rows')
    ensures HasRow(rows', order)
  {
    var id :| id in rows && IsCreatedRow(rows[id]) && rows[id].payload.OrderCreated? && rows[id].payload.order.id == order;
    assert SameMessage(rows[id], rows'[id]);
  }

  /** Steps that add no row and no order. */
  lemma SameRowsInv(s: State, s': State)
    requires RowsInv(s) && s'.tables.orders == s.tables.orders && s'.tables.rows.Keys == s.tables.rows.Keys
    requires Preserves(s.tables.rows, s'.tables.rows) && T.Extends(s'.topics, s.topics)
    ensures RowsInv(s')
  {
    hide HasRow, T.Validate, Itoa;
    forall id | id in s'.tables.rows
      ensures SameMessage(s.tables.rows[id], s'.tables.rows[id]) && WellWritten(s'.topics, s'.tables.rows[id])
    {
      StaysWellWritten(s.topics, s'.topics, s.tables.rows[id], s'.tables.rows[id]);
    }
    forall o | o in s'.tables.orders
      ensures HasRow(s'.tables.rows, o)
    {
      HasRowStays(s.tables.rows, s'.tables.rows, o);
    }
  }

  lemma StaysWellWritten(topics: map<string, T.Meta>, topics': map<string, T.Meta>, row: Row, row': Row)
    requires WellWritten(topics, row) && T.Extends(topics', topics) && SameMessage(row, row')
    ensures WellWritten(topics', row')
  {
  }

  /** A new created-event row belongs to a new order, so no other such row has its key. */
  lemma NewKey(s: State, row: Row)
    requires RowsInv(s) && row.id !in s.tables.rows
    requires IsCreatedRow(row) ==>
               row.payload.OrderCreated? && row.key == Itoa(row.payload.order.id) && row.payload.order.id !in s.tables.orders
    ensures OneRowPerKey(s.tables.rows[row.id := row])
  {
    hide Itoa, HasRow;
    forall id | id in s.tables.rows && IsCreatedRow(s.tables.rows[id]) && IsCreatedRow(row)
      ensures s.tables.rows[id].key != row.key
    {
      if s.tables.rows[id].key == row.key {
        ItoaInjective(s.tables.rows[id].payload.order.id, row.payload.order.id);
        assert false;
      }
    }
  }

  lemma AddRowInv(s: State, row: Row, orders: map<nat, Order>)
    requires RowsInv(s) && row.id !in s.tables.rows && WellWritten(s.topics, row)
    requires IsCreatedRow(row) ==>
               && row.payload.OrderCreated? && row.key == Itoa(row.payload.order.id) && row.headers == NoHeaders
               && row.payload.order.id !in s.tables.orders
               && orders == s.tables.orders[row.payload.order.id := row.payload.order]
    requires !IsCreatedRow(row) ==> orders == s.tables.orders
    ensures RowsInv(s.(tables := X.Tables(orders, s.tables.rows[row.id := row])))
  {
    hide Itoa, OneRowPerKey, WellWritten, HasRow;
    NewKey(s, row);
    var rows' := s.tables.rows[row.id := row];
    forall o | o in orders
      ensures HasRow(rows', o)
    {
      NewHasRow(s.tables.rows, row, o);
    }
  }

  lemma NewHasRow(rows: Rows, row: Row, o: nat)
    requires row.id !in rows
    requires HasRow(rows, o) || (IsCreatedRow(row) && row.payload.OrderCreated? && row.payload.order.id == o)
    ensures HasRow(rows[row.id := row], o)
  {
    if HasRow(rows, o) {
      HasRowStays(rows, rows[row.id := row], o);
    } else {
      assert rows[row.id := row][row.id] == row;
    }
  }

  lemma StepRowsInv(s: State, e: Event)
    requires RowsInv(s) && Enabled(s, e)
    ensures RowsInv(Next(s, e))
  {
    StepPreserves(s, e);
    match e
    case CreateOrder(order, id, script) =>
      if Next(s, e).tables != s.tables {
        AddRowInv(s, X.EventRow(order, id), s.tables.orders[order.id := order]);
      }
    case WriteOther(id, topic, key, text, pairs) =>
      if Next(s, e) != s {
        AddRowInv(s, NewRow(id, topic, key, OtherEvent(text), pairs), s.tables.orders);
      }
    case _ => SameRowsInv(s, Next(s, e));
  }

  lemma {:induction false} RunRowsInv(states: seq<State>, events: seq<Event>, n: nat)
    requires IsRun(states, events) && n <= |events|
    ensures RowsInv(states[n])
  {
    if n > 0 {
      RunRowsInv(states, events, n - 1);
      StepRowsInv(states[n - 1], events[n - 1]);
    }
  }

  /** In every reachable state: an order is committed exactly when there is a created-event row for
      it, that row is the only one, and it carries the order as committed, with its id as the key. */
  lemma OrderAndEventTogether(states: seq<State>, events: seq<Event>, n: nat, order: nat)
    requires IsRun(states, events) && n <= |events|
    ensures order in states[n].tables.orders <==> HasRow(states[n].tables.rows, order)
    ensures OneRowPerKey(states[n].tables.rows)
    ensures forall id :: id in states[n].tables.rows && states[n].tables.rows[id].topic == "order.order.created" ==>
              var row := states[n].tables.rows[id];
              && row.payload.OrderCreated? && row.key == Itoa(row.payload.order.id)
              && row.payload.order.id in states[n].tables.orders
              && states[n].tables.orders[row.payload.order.id] == row.payload.order
  {
    RunRowsInv(states, events, n);
  }

  /** A creation that failed, panicked or was refused at the commit leaves neither order nor row; one
      that succeeded leaves both. */
  lemma NothingOfARollback(s: State, order: Order, id: nat, script: X.Script)
    requires Enabled(s, CreateOrder(order, id, script))
    ensures var (after, outcome) := X.Creation(s.tables, s.topics, order, id, script);
            && (!outcome.Ok? && script.commit != ReplyLost ==> after == s.tables)
            && (after == s.tables
                || (&& order.id !in s.tables.orders && after.orders == s.tables.orders[order.id := order]
                    && after.rows == s.tables.rows[id := Row(id, "order.order.created", Itoa(order.id), OrderCreated(order),
                                                             NoHeaders, Pending, 0, None)]))
            && (outcome.Ok? ==> after != s.tables && outcome.value == order)
  {
    X.AllOrNothing(s.tables, script.beginUp, X.CreateBody(s.topics, order, id, script), script.commit);
  }

  // ---------- what relays hold, and why a row changes status ----------

  /** A row was given up for a reason: a permanent broker error, or five rounds that ended in errors. */
  ghost predicate Cause(s: State, id: nat) {
    id in s.permanent || ErrorsOf(s, id) >= MAX_ROUNDS
  }

  ghost predicate RowOk(s: State, id: nat)
    requires id in s.tables.rows
  {
    var row := s.tables.rows[id];
    && row.retryCount <= ErrorsOf(s, id)
    && (row.status == Pending ==> row.retryCount < MAX_ROUNDS)
    && (row.status == Published ==> id in s.acked)
    && (row.status == Failed ==> Cause(s, id))
  }

  ghost predicate EntryOk(s: State, entry: Row) {
    && entry.id in s.tables.rows
    && SameMessage(entry, s.tables.rows[entry.id])
    && entry.retryCount <= ErrorsOf(s, entry.id)
  }

  ghost predicate OwedOk(s: State, hand: Hand) {
    && (forall i :: 0 <= i < |hand.batch| ==> EntryOk(s, hand.batch[i]))
    && (hand.owed.Some? && hand.batch != [] ==>
          var id := hand.batch[0].id;
          match hand.owed.value
          case MarkPublished => id in s.acked
          case MarkFailed => Cause(s, id)
          case Reschedule(count, _) => count < MAX_ROUNDS && count <= ErrorsOf(s, id))
  }

  ghost predicate RelayInv(s: State) {
    && (forall id :: id in s.tables.rows ==> RowOk(s, id))
    && (forall q :: q in s.hands ==> OwedOk(s, s.hands[q]))
  }

  /** What only grows. */
  ghost predicate Grown(s: State, s': State) {
    && Preserves(s.tables.rows, s'.tables.rows)
    && s.acked <= s'.acked && s.permanent <= s'.permanent
    && forall id :: ErrorsOf(s, id) <= ErrorsOf(s', id)
  }

  lemma OwedStays(s: State, s': State, hand: Hand)
    requires Grown(s, s') && OwedOk(s, hand)
    ensures OwedOk(s', hand)
  {
    forall i | 0 <= i < |hand.batch|
      ensures EntryOk(s', hand.batch[i])
    {
      assert EntryOk(s, hand.batch[i]);
    }
  }

  lemma RowStays(s: State, s': State, id: nat)
    requires Grown(s, s') && id in s.tables.rows && RowOk(s, id) && s'.tables.rows[id] == s.tables.rows[id]
    ensures RowOk(s', id)
  {
  }

  lemma RoundInv(s: State, q: RelayId, env: nat -> Pass, now: int)
    requires RowsInv(s) && RelayInv(s) && Enabled(s, PublishRound(q, env, now))
    ensures RelayInv(Published1(s, q, env, now))
  {
    hide RunRound, PublishOutcome;
    var s' := Published1(s, q, env, now);
    StepPreserves(s, PublishRound(q, env, now));
    var hand, entry := s.hands[q], s.hands[q].batch[0];
    var r := RunRound(s.topics, entry, env, now);
    RoundOutcome(s.topics, entry, env, now);
    assert OwedOk(s, hand) && EntryOk(s, entry);
    forall id | id in s'.tables.rows
      ensures RowOk(s', id)
    {
      assert RowOk(s, id);
      RowStays(s, s', id);
    }
    forall p | p in s'.hands
      ensures OwedOk(s', s'.hands[p])
    {
      assert OwedOk(s, s.hands[p]);
      OwedStays(s, s', s.hands[p]);
      if p == q && r.verdict == MarkFailed {
        assert WellWritten(s.topics, s.tables.rows[entry.id]);
        assert Cause(s', entry.id);
      }
    }
  }

  lemma WriteRowInv(s: State, q: RelayId, up: bool)
    requires RelayInv(s) && Keyed(s.tables.rows) && Enabled(s, WriteStatus(q, up))
    ensures forall id :: id in Next(s, WriteStatus(q, up)).tables.rows ==> RowOk(Next(s, WriteStatus(q, up)), id)
  {
    hide Keyed;
    var s' := Next(s, WriteStatus(q, up));
    assert OwedOk(s, s.hands[q]);
    forall id | id in s'.tables.rows
      ensures RowOk(s', id)
    {
      assert RowOk(s, id);
    }
  }

  /** The first entry is done with. */
  lemma RestOk(s: State, hand: Hand)
    requires OwedOk(s, hand) && hand.batch != []
    ensures OwedOk(s, Hand(hand.batch[1..], None))
  {
    hide EntryOk;
    var rest := hand.batch[1..];
    assert forall i :: 0 <= i < |rest| ==> rest[i] == hand.batch[i + 1];
  }

  lemma WriteInv(s: State, q: RelayId, up: bool)
    requires RowsInv(s) && RelayInv(s) && Enabled(s, WriteStatus(q, up))
    ensures RelayInv(Next(s, WriteStatus(q, up)))
  {
    hide RowOk, OwedOk, EntryOk, Preserves, Applied;
    var s' := Next(s, WriteStatus(q, up));
    StepPreserves(s, WriteStatus(q, up));
    WriteRowInv(s, q, up);
    forall p | p in s'.hands
      ensures OwedOk(s', s'.hands[p])
    {
      if p == q {
        RestOk(s, s.hands[q]);
      }
      OwedStays(s, s', s'.hands[p]);
    }
  }

  lemma FetchInv(s: State, q: RelayId, now: int, limit: nat, batch: seq<Row>)
    requires RelayInv(s) && Enabled(s, Fetch(q, now, limit, batch))
    ensures RelayInv(Next(s, Fetch(q, now, limit, batch)))
  {
    var s' := Next(s, Fetch(q, now, limit, batch));
    forall i | 0 <= i < |batch|
      ensures EntryOk(s', batch[i])
    {
      assert RowOk(s, batch[i].id);
    }
    forall id | id in s'.tables.rows
      ensures RowOk(s', id)
    {
      RowStays(s, s', id);
    }
    forall p | p in s'.hands
      ensures OwedOk(s', s'.hands[p])
    {
      if p != q {
        OwedStays(s, s', s.hands[p]);
      }
    }
  }

  /** Steps of the database alone: the hands stay, rows are as before, new, or reset. */
  lemma DatabaseInv(s: State, s': State)
    requires RelayInv(s) && Grown(s, s') && s'.hands.Keys <= s.hands.Keys
    requires forall p :: p in s'.hands ==> s'.hands[p] == s.hands[p]
    requires forall id :: id in s'.tables.rows ==>
               var row := s'.tables.rows[id];
               (id in s.tables.rows && row == s.tables.rows[id]) || (row.status == Pending && row.retryCount == 0)
    ensures RelayInv(s')
  {
    forall id | id in s'.tables.rows
      ensures RowOk(s', id)
    {
      if id in s.tables.rows && s'.tables.rows[id] == s.tables.rows[id] {
        RowStays(s, s', id);
      }
    }
    forall p | p in s'.hands
      ensures OwedOk(s', s'.hands[p])
    {
      OwedStays(s, s', s.hands[p]);
    }
  }

  lemma OtherRelayInv(s: State, e: Event)
    requires RelayInv(s) && Enabled(s, e) && !e.Fetch? && !e.PublishRound? && !e.WriteStatus?
    ensures RelayInv(Next(s, e))
  {
    hide RelayInv, Preserves, RunRound;
    StepPreserves(s, e);
    DatabaseInv(s, Next(s, e));
  }

  lemma StepRelayInv(s: State, e: Event)
    requires RowsInv(s) && RelayInv(s) && Enabled(s, e)
    ensures RelayInv(Next(s, e))
  {
    hide RelayInv, RowsInv, Published1, RunRound;
    match e
    case PublishRound(q, env, now) => RoundInv(s, q, env, now);
    case WriteStatus(q, up) => WriteInv(s, q, up);
    case Fetch(q, now, limit, batch) => FetchInv(s, q, now, limit, batch);
    case _ => OtherRelayInv(s, e);
  }

  lemma {:induction false} RunRelayInv(states: seq<State>, events: seq<Event>, n: nat)
    requires IsRun(states, events) && n <= |events|
    ensures RelayInv(states[n])
  {
    if n > 0 {
      RunRowsInv(states, events, n - 1);
      RunRelayInv(states, events, n - 1);
      StepRelayInv(states[n - 1], events[n - 1]);
    }
  }

  /** In every reachable state, for any number of relays: a published row was accepted by the producer
      at least once; a failed one had a permanent broker error or five rounds ending in errors, never a
      key or header problem; a pending one has been counted fewer than five rounds. */
  lemma StatusHasACause(states: seq<State>, events: seq<Event>, n: nat, id: nat)
    requires IsRun(states, events) && n <= |events| && id in states[n].tables.rows
    ensures var (s, row) := (states[n], states[n].tables.rows[id]);
            && (row.status == Published ==> id in s.acked)
            && (row.status == Failed ==> id in s.permanent || ErrorsOf(s, id) >= MAX_ROUNDS)
            && (row.status == Pending ==> row.retryCount < MAX_ROUNDS)
            && row.headers != Malformed && T.Validate(s.topics, row.topic, row.key) == None
  {
    RunRelayInv(states, events, n);
    RunRowsInv(states, events, n);
    assert RowOk(states[n], id) && WellWritten(states[n].topics, states[n].tables.rows[id]);
  }

  // ---------- the broker's log ----------

  ghost predicate FromARow(rows: Rows, r: Record) {
    exists id :: id in rows && RecordOf(rows[id]) == r
  }

  ghost predicate LogInv(s: State) {
    && (forall r :: r in s.log ==> FromARow(s.tables.rows, r))
    && (forall id :: id in s.acked ==> id in s.tables.rows && RecordOf(s.tables.rows[id]) in s.log)
  }

  lemma FromARowStays(rows: Rows, rows': Rows, r: Record)
    requires FromARow(rows, r) && Preserves(rows, rows')
    ensures FromARow(rows', r)
  {
    var id :| id in rows && RecordOf(rows[id]) == r;
    assert SameMessage(rows[id], rows'[id]);
  }

  lemma RoundLogInv(s: State, q: RelayId, env: nat -> Pass, now: int)
    requires RelayInv(s) && LogInv(s) && Enabled(s, PublishRound(q, env, now))
    ensures LogInv(Published1(s, q, env, now))
  {
    var s' := Published1(s, q, env, now);
    var entry := s.hands[q].batch[0];
    RoundOutcome(s.topics, entry, env, now);
    assert OwedOk(s, s.hands[q]) && EntryOk(s, entry);
    assert RecordOf(s.tables.rows[entry.id]) == RecordOf(entry);
    var r := RunRound(s.topics, entry, env, now);
    var more := Copies(RecordOf(entry), r.appended);
    hide RunRound, RecordOf;
    if r.err == None {
      assert more[0] in s'.log;
    }
    forall x | x in s'.log
      ensures FromARow(s'.tables.rows, x)
    {
      assert x in s.log || x == RecordOf(entry);
    }
  }

  lemma StepLogInv(s: State, e: Event)
    requires RelayInv(s) && LogInv(s) && Enabled(s, e)
    ensures LogInv(Next(s, e))
  {
    if e.PublishRound? {
      RoundLogInv(s, e.q, e.env, e.now);
    } else {
      var s' := Next(s, e);
      StepPreserves(s, e);
      assert s'.log == s.log && s'.acked == s.acked;
      hide Next;
      forall id | id in s.acked
        ensures id in s'.tables.rows && RecordOf(s'.tables.rows[id]) in s'.log
      {
        assert SameMessage(s.tables.rows[id], s'.tables.rows[id]);
      }
      forall r | r in s'.log
        ensures FromARow(s'.tables.rows, r)
      {
        FromARowStays(s.tables.rows, s'.tables.rows, r);
      }
    }
  }

  lemma {:induction false} RunLogInv(states: seq<State>, events: seq<Event>, n: nat)
    requires IsRun(states, events) && n <= |events|
    ensures LogInv(states[n])
  {
    if n > 0 {
      RunRelayInv(states, events, n - 1);
      RunLogInv(states, events, n - 1);
      StepLogInv(states[n - 1], events[n - 1]);
    }
  }

  /** The record's fields are the row's, each in its own place. */
  predicate Carries(r: Record, row: Row) {
    && r.topic == row.topic && r.key == row.key && r.payload == row.payload
    && r.pairs == if row.headers.Encoded? then row.headers.pairs else map[]
  }

  /** Whatever the broker holds has the topic, the key, the payload and the headers of a committed row;
      and every published row's topic, key, payload and headers are there. */
  lemma BrokerMatchesRows(states: seq<State>, events: seq<Event>, n: nat)
    requires IsRun(states, events) && n <= |events|
    ensures forall r :: r in states[n].log ==> exists id ::
              && id in states[n].tables.rows
              && r.topic == states[n].tables.rows[id].topic && r.key == states[n].tables.rows[id].key
              && r.payload == states[n].tables.rows[id].payload
              && r.pairs == match states[n].tables.rows[id].headers case Encoded(pairs) => pairs case _ => map[]
    ensures forall id :: id in states[n].tables.rows && states[n].tables.rows[id].status == Published ==> exists r ::
              && r in states[n].log
              && r.topic == states[n].tables.rows[id].topic && r.key == states[n].tables.rows[id].key
              && r.payload == states[n].tables.rows[id].payload
              && r.pairs == match states[n].tables.rows[id].headers case Encoded(pairs) => pairs case _ => map[]
  {
    RunRelayInv(states, events, n);
    RunLogInv(states, events, n);
    var s := states[n];
    forall r | r in s.log
      ensures exists id :: id in s.tables.rows && Carries(r, s.tables.rows[id])
    {
      assert FromARow(s.tables.rows, r);
      var id :| id in s.tables.rows && RecordOf(s.tables.rows[id]) == r;
      assert Carries(r, s.tables.rows[id]);
    }
    forall id | id in s.tables.rows && s.tables.rows[id].status == Published
      ensures exists r :: r in s.log && Carries(r, s.tables.rows[id])
    {
      assert RowOk(s, id);
      assert Carries(RecordOf(s.tables.rows[id]), s.tables.rows[id]);
    }
  }

  /** What the broker holds under the created-order topic tells of a committed order, as it was committed,
      with its id as the key. */
  lemma BrokerTellsOrders(states: seq<State>, events: seq<Event>, n: nat)
    requires IsRun(states, events) && n <= |events|
    ensures forall r :: r in states[n].log && r.topic == "order.order.created" ==>
              && r.payload.OrderCreated? && r.payload.order.id in states[n].tables.orders
              && states[n].tables.orders[r.payload.order.id] == r.payload.order
              && r.key == Itoa(r.payload.order.id) && r.pairs == map[]
  {
    RunRowsInv(states, events, n);
    RunLogInv(states, events, n);
    hide Itoa, IsRun;
    var s := states[n];
    forall r | r in s.log && r.topic == "order.order.created"
      ensures exists id :: id in s.tables.rows && IsCreatedRow(s.tables.rows[id]) && RecordOf(s.tables.rows[id]) == r
    {
      assert FromARow(s.tables.rows, r);
      var id :| id in s.tables.rows && RecordOf(s.tables.rows[id]) == r;
      assert s.tables.rows[id].topic == r.topic;
      assert IsCreatedRow(s.tables.rows[id]);
    }
  }

  /** WriteOutbox in a transaction of its own: a valid key adds exactly the row it was given, fresh and
      pending; an invalid one changes nothing. */
  lemma WritesExactly(s: State, id: nat, topic: string, key: string, text: string, pairs: map<string, string>)
    requires Enabled(s, WriteOther(id, topic, key, text, pairs))
    ensures var s' := Next(s, WriteOther(id, topic, key, text, pairs));
            && (T.Validate(s.topics, topic, key) != None ==> s' == s)
            && (T.Validate(s.topics, topic, key) == None ==>
                  && s'.tables.orders == s.tables.orders && id in s'.tables.rows
                  && s'.tables.rows == s.tables.rows[id := s'.tables.rows[id]]
                  && s'.tables.rows[id] == Row(id, topic, key, OtherEvent(text), s'.tables.rows[id].headers, Pending, 0, None)
                  && (if pairs == map[] then s'.tables.rows[id].headers == NoHeaders else s'.tables.rows[id].headers == Encoded(pairs)))
  {
  }

  // ---------- what the histories mean ----------

  /** Step by step, the histories say what happened: a row is acknowledged when a call of Publish
      succeeded, its errors grow by one for a round without such a call, it has met a permanent error
      when a call was refused for good, and the log grows by what a round leaves in the broker. */
  lemma HistoriesAreTrue(s: State, e: Event, id: nat)
    requires Enabled(s, e)
    ensures var mine := e.PublishRound? && s.hands[e.q].batch[0].id == id;
            var accepted := e.PublishRound? && Accepts(s.topics, s.hands[e.q].batch[0], e.env, RoundOf(s, e).calls);
            && (id in Next(s, e).acked <==> id in s.acked || (mine && accepted))
            && ErrorsOf(Next(s, e), id) == ErrorsOf(s, id) + (if mine && !accepted then 1 else 0)
            && (id in Next(s, e).permanent <==> id in s.permanent || (mine && PermanentCause(RoundOf(s, e), e.env)))
            && |Next(s, e).log| == |s.log| + if e.PublishRound? then RoundOf(s, e).appended else 0
  {
    if e.PublishRound? {
      RoundOutcome(s.topics, s.hands[e.q].batch[0], e.env, e.now);
    }
    hide RunRound, Accepts, PermanentCause;
  }

  ghost function RoundOf(s: State, e: Event): Round
    requires Enabled(s, e) && e.PublishRound?
  {
    RunRound(s.topics, s.hands[e.q].batch[0], e.env, e.now)
  }
}
