/** Orders behind a cache: version-guarded writes, cache-aside reads, and deletes of the cached
    copy after a commit, which may fail or come too early. */
module OrderCache {
  import opened Wrappers

  /** Milliseconds. */
  const CACHE_TTL := 300_000

  datatype Status = Pending | Confirmed | Shipped | Delivered | Cancelled

  /** What a reader sees of an order. */
  datatype Order = Order(status: Status, version: int)

  datatype Row = Row(order: Order, deleted: bool)

  /** SELECT ... WHERE deleted_at IS NULL. */
  function Visible(row: Option<Row>): Option<Order> {
    if row.Some? && !row.value.deleted then Some(row.value.order) else None
  }

  /** INSERT of a new order: the zero version is left to the column default. */
  function Inserted(row: Option<Row>): Option<Row> {
    if row.Some? then row else Some(Row(Order(Pending, 1), false))
  }

  /** UPDATE ... WHERE version = ? AND deleted_at IS NULL: the new row, and whether one matched. */
  function Updated(row: Option<Row>, status: Status, version: int): (Option<Row>, bool) {
    if Visible(row).Some? && Visible(row).value.version == version
    then (Some(Row(Order(status, version + 1), false)), true)
    else (row, false)
  }

  function SoftDeleted(row: Option<Row>): Option<Row> {
    if Visible(row).Some? then Some(row.value.(deleted := true)) else row
  }

  // ---------- the repository and the service ----------

  type Id = nat

  datatype Error = DbError | NotFound | StaleVersion | NotCancellable

  datatype Cached = Cached(order: Order, expireAt: int)

  class Service {
    var rows: map<Id, Row>
    var cache: map<Id, Cached>
    var now: int

    function RowOf(id: Id): Option<Row>
      reads this
    {
      if id in rows then Some(rows[id]) else None
    }

    /** The cached order, unless it has expired: Redis drops it once its expiry lies in the past. */
    function Hit(id: Id): Option<Order>
      reads this
    {
      if id in cache && now <= cache[id].expireAt then Some(cache[id].order) else None
    }

    ghost predicate Versioned()
      reads this
    {
      forall id :: id in rows ==> rows[id].order.version >= 1
    }

    constructor (time: int)
      ensures rows == map[] && cache == map[] && now == time && Versioned()
    {
      rows, cache, now := map[], map[], time;
    }

    method Insert(id: Id)
      requires Versioned()
      modifies this`rows
      ensures RowOf(id) == Inserted(old(RowOf(id))) && Versioned()
      ensures old(RowOf(id)) == None ==> RowOf(id) == Some(Row(Order(Pending, 1), false))
      ensures forall k :: k != id ==> RowOf(k) == old(RowOf(k))
    {
      if id !in rows {
        rows := rows[id := Row(Order(Pending, 1), false)];
      }
    }

    method UpdateStatus(id: Id, status: Status, version: int, up: bool) returns (err: Option<Error>)
      requires Versioned()
      modifies this`rows
      ensures !up ==> err == Some(DbError) && rows == old(rows)
      ensures up ==> RowOf(id) == Updated(old(RowOf(id)), status, version).0
      ensures up ==> err == if Updated(old(RowOf(id)), status, version).1 then None else Some(StaleVersion)
      ensures err == None ==>
                && old(RowOf(id)).Some? && !old(RowOf(id)).value.deleted && old(RowOf(id)).value.order.version == version
                && RowOf(id) == Some(Row(Order(status, version + 1), false))
      ensures forall k :: k != id ==> RowOf(k) == old(RowOf(k))
      ensures Versioned()
    {
      if !up {
        return Some(DbError);
      }
      var affected := 0;
      if id in rows && rows[id].order.version == version && !rows[id].deleted {
        rows := rows[id := Row(Order(status, rows[id].order.version + 1), false)];
        affected := 1;
      }
      err := if affected == 0 then Some(StaleVersion) else None;
    }

    method SoftDelete(id: Id)
      requires Versioned()
      modifies this`rows
      ensures RowOf(id) == SoftDeleted(old(RowOf(id))) && Versioned()
      ensures old(RowOf(id)) == None <==> RowOf(id) == None
      ensures old(RowOf(id)).Some? ==> RowOf(id) == Some(Row(old(RowOf(id)).value.order, true))
      ensures forall k :: k != id ==> RowOf(k) == old(RowOf(k))
    {
      if id in rows && !rows[id].deleted {
        rows := rows[id := rows[id].(deleted := true)];
      }
    }

    /** GetByID without interference: a live cached copy wins; otherwise the row is read and, if the
        cache answers, stored for the TTL. */
    method GetByID(id: Id, getUp: bool, dbUp: bool, setUp: bool) returns (result: Result<Order, Error>)
      modifies this`cache
      ensures getUp && old(Hit(id)).Some? ==> result == Success(old(Hit(id)).value)
      ensures !(getUp && old(Hit(id)).Some?) ==>
                result == if !dbUp then Failure(DbError)
                          else if Visible(RowOf(id)) == None then Failure(NotFound)
                          else Success(Visible(RowOf(id)).value)
      ensures cache == if !(getUp && old(Hit(id)).Some?) && setUp && result.Success?
                       then old(cache)[id := Cached(result.value, now + 300_000)] else old(cache)
    {
      if getUp && id in cache && now <= cache[id].expireAt {
        return Success(cache[id].order);
      }
      if !dbUp {
        return Failure(DbError);
      }
      if id !in rows || rows[id].deleted {
        return Failure(NotFound);
      }
      var order := rows[id].order;
      if setUp {
        cache := cache[id := Cached(order, now + CACHE_TTL)];
      }
      result := Success(order);
    }

    /** Cancel: it always passes version 0, so it never cancels anything. */
    method Cancel(id: Id, readUp: bool, updateUp: bool) returns (err: Option<Error>)
      requires Versioned()
      modifies this
      ensures err.Some? && rows == old(rows) && cache == old(cache) && now == old(now)
      ensures readUp && updateUp && Visible(RowOf(id)).Some? ==>
                err.value == if Visible(RowOf(id)).value.status in {Pending, Confirmed} then StaleVersion else NotCancellable
    {
      if !readUp {
        return Some(DbError);
      }
      if id !in rows || rows[id].deleted {
        return Some(NotFound);
      }
      var existing := rows[id].order;
      if existing.status != Pending && existing.status != Confirmed {
        return Some(NotCancellable);
      }
      label Before:
      err := UpdateStatus(id, Cancelled, 0, updateUp);
      assert rows == old(rows) by {
        forall k
          ensures RowOf(k) == old@Before(RowOf(k))
        {
        }
        assert forall k :: k in rows <==> RowOf(k).Some?;
        assert forall k :: k in old(rows) <==> old@Before(RowOf(k)).Some?;
      }
      if err.None? {
        assert false;  // the cached copy would be deleted here
      }
    }
  }

  // ---------- any interleaving of readers and writers of one order ----------

  type Reader = nat

  /** An instant at which the visible order changed, and what it became. */
  datatype Change = Change(at: int, order: Option<Order>)

  datatype Read = Read(order: Order, at: int)

  datatype State = State(
    now: int,
    row: Option<Row>,
    changes: seq<Change>,
    cache: Option<Cached>,
    reading: map<Reader, Read>,   // readers between their database read and their cache write
    returned: seq<Read>)          // what GetByID returned, and when

  datatype Event =
    | Wait(ms: nat)
    | Create
    | Update(status: Status, version: int)
    | Remove
    | DeleteCached(up: bool)
    | ReadCached                          // GetByID hits the cache
    | ReadRow(reader: Reader)             // GetByID missed it, or the cache failed, and reads the row
    | StoreAndReturn(reader: Reader, up: bool)
    | Abandon(reader: Reader)

  predicate Enabled(s: State, e: Event) {
    match e
    case ReadCached => s.cache.Some? && s.now <= s.cache.value.expireAt
    case ReadRow(r) => r !in s.reading && Visible(s.row).Some?
    case StoreAndReturn(r, _) => r in s.reading
    case _ => true
  }

  /** A committed write records what became visible. */
  function Written(s: State, row: Option<Row>): State {
    s.(row := row, changes := if row == s.row then s.changes else s.changes + [Change(s.now, Visible(row))])
  }

  function Next(s: State, e: Event): State
    requires Enabled(s, e)
  {
    match e
    case Wait(ms) => s.(now := s.now + ms)
    case Create => Written(s, Inserted(s.row))
    case Update(status, version) => Written(s, Updated(s.row, status, version).0)
    case Remove => Written(s, SoftDeleted(s.row))
    case DeleteCached(up) => if up then s.(cache := None) else s
    case ReadCached => s.(returned := s.returned + [Read(s.cache.value.order, s.now)])
    case ReadRow(r) => s.(reading := s.reading[r := Read(Visible(s.row).value, s.now)])
    case StoreAndReturn(r, up) =>
      var order := s.reading[r].order;
      s.(cache := if up then Some(Cached(order, s.now + CACHE_TTL)) else s.cache,
         reading := s.reading - {r},
         returned := s.returned + [Read(order, s.now)])
    case Abandon(r) => s.(reading := s.reading - {r})
  }

  function Start(time: int): State {
    State(time, None, [Change(time, None)], None, map[], [])
  }

  /** A run in which no reader takes longer than `gap` from its database read to its cache write. */
  ghost predicate IsRun(states: seq<State>, events: seq<Event>, gap: nat) {
    && |states| == |events| + 1
    && states[0] == Start(states[0].now)
    && forall i: nat :: i < |events| ==> Step(states[i], events[i], states[i + 1], gap)
  }

  ghost predicate Step(s: State, e: Event, s': State, gap: nat) {
    && Enabled(s, e)
    && s' == Next(s, e)
    && (e.StoreAndReturn? ==> s.now - s.reading[e.reader].at <= gap)
  }

  // ---------- bounded staleness ----------

  /** The database held the value at some moment of instant u. */
  ghost predicate HeldAt(changes: seq<Change>, order: Order, u: int) {
    exists i: nat :: i < |changes| && HeldFrom(changes, order, u, i)
  }

  predicate HeldFrom(changes: seq<Change>, order: Order, u: int, i: nat)
    requires i < |changes|
  {
    changes[i].order == Some(order) && changes[i].at <= u && (i + 1 < |changes| ==> u <= changes[i + 1].at)
  }

  /** The database held the value at some instant between two bounds. */
  ghost predicate HeldWithin(changes: seq<Change>, order: Order, lo: int, hi: int) {
    exists u :: lo <= u <= hi && HeldAt(changes, order, u)
  }

  ghost predicate Fresh(s: State, gap: nat) {
    && s.changes != []
    && s.changes[|s.changes| - 1].order == Visible(s.row)
    && s.changes[|s.changes| - 1].at <= s.now
    && (s.cache.Some? ==>
          HeldWithin(s.changes, s.cache.value.order, s.cache.value.expireAt - CACHE_TTL - gap, s.now))
    && (forall r :: r in s.reading ==> s.reading[r].at <= s.now && HeldAt(s.changes, s.reading[r].order, s.reading[r].at))
    && (forall k :: 0 <= k < |s.returned| ==>
          s.returned[k].at <= s.now
          && HeldWithin(s.changes, s.returned[k].order, s.returned[k].at - CACHE_TTL - gap, s.returned[k].at))
  }

  lemma HeldIndex(changes: seq<Change>, order: Order, u: int) returns (i: nat)
    requires HeldAt(changes, order, u)
    ensures i < |changes| && changes[i].order == Some(order)
  {
    i :| i < |changes| && HeldFrom(changes, order, u, i);
  }

  lemma HeldStays(changes: seq<Change>, c: Change, order: Order, u: int)
    requires HeldAt(changes, order, u) && u <= c.at
    ensures HeldAt(changes + [c], order, u)
  {
    var i: nat :| i < |changes| && HeldFrom(changes, order, u, i);
    assert HeldFrom(changes + [c], order, u, i);
  }

  lemma WithinStays(changes: seq<Change>, c: Change, order: Order, lo: int, hi: int)
    requires HeldWithin(changes, order, lo, hi) && hi <= c.at
    ensures HeldWithin(changes + [c], order, lo, hi)
  {
    var u :| lo <= u <= hi && HeldAt(changes, order, u);
    HeldStays(changes, c, order, u);
  }

  lemma WriteFresh(s: State, row: Option<Row>, gap: nat)
    requires Fresh(s, gap)
    ensures Fresh(Written(s, row), gap)
  {
    if row != s.row {
      var c := Change(s.now, Visible(row));
      if s.cache.Some? {
        WithinStays(s.changes, c, s.cache.value.order, s.cache.value.expireAt - CACHE_TTL - gap, s.now);
      }
      forall r | r in s.reading
        ensures HeldAt(s.changes + [c], s.reading[r].order, s.reading[r].at)
      {
        HeldStays(s.changes, c, s.reading[r].order, s.reading[r].at);
      }
      forall k | 0 <= k < |s.returned|
        ensures HeldWithin(s.changes + [c], s.returned[k].order, s.returned[k].at - CACHE_TTL - gap, s.returned[k].at)
      {
        WithinStays(s.changes, c, s.returned[k].order, s.returned[k].at - CACHE_TTL - gap, s.returned[k].at);
      }
    }
  }

  lemma WithinWider(changes: seq<Change>, order: Order, lo: int, hi: int, lo': int, hi': int)
    requires HeldWithin(changes, order, lo, hi) && lo' <= lo && hi <= hi'
    ensures HeldWithin(changes, order, lo', hi')
  {
  }

  lemma StepFresh(s: State, e: Event, gap: nat)
    requires Fresh(s, gap) && Enabled(s, e)
    requires e.StoreAndReturn? ==> s.now - s.reading[e.reader].at <= gap
    ensures Fresh(Next(s, e), gap)
  {
    match e
    case Create => WriteFresh(s, Inserted(s.row), gap);
    case Update(status, version) => WriteFresh(s, Updated(s.row, status, version).0, gap);
    case Remove => WriteFresh(s, SoftDeleted(s.row), gap);
    case Wait(ms) =>
      if s.cache.Some? {
        var lo := s.cache.value.expireAt - CACHE_TTL - gap;
        WithinWider(s.changes, s.cache.value.order, lo, s.now, lo, s.now + ms);
      }
    case ReadCached =>
      var c := s.cache.value;
      WithinWider(s.changes, c.order, c.expireAt - CACHE_TTL - gap, s.now, s.now - CACHE_TTL - gap, s.now);
    case ReadRow(r) =>
      assert HeldFrom(s.changes, Visible(s.row).value, s.now, |s.changes| - 1);
    case StoreAndReturn(r, up) =>
      var read := s.reading[r];
      assert HeldWithin(s.changes, read.order, s.now - gap, s.now);
      WithinWider(s.changes, read.order, s.now - gap, s.now, s.now - CACHE_TTL - gap, s.now);
    case _ =>
  }

  lemma {:induction false} RunFresh(states: seq<State>, events: seq<Event>, gap: nat, n: nat)
    requires IsRun(states, events, gap) && n <= |events|
    ensures Fresh(states[n], gap)
  {
    if n > 0 {
      RunFresh(states, events, gap, n - 1);
      assert Step(states[n - 1], events[n - 1], states[n], gap);
      StepFresh(states[n - 1], events[n - 1], gap);
    }
  }

  /** Under any interleaving of readers and writers, even when every delete of the cached copy
      fails, a value GetByID returned was the database's value at some instant no older than the TTL
      plus the longest gap between a reader's database read and its cache write. */
  lemma BoundedStaleness(states: seq<State>, events: seq<Event>, gap: nat, n: nat, k: nat)
    requires IsRun(states, events, gap) && n <= |events| && k < |states[n].returned|
    ensures var r := states[n].returned[k];
            exists u :: r.at - 300_000 - gap <= u <= r.at && HeldAt(states[n].changes, r.order, u)
  {
    RunFresh(states, events, gap, n);
    var r := states[n].returned[k];
    assert HeldWithin(states[n].changes, r.order, r.at - CACHE_TTL - gap, r.at);
  }

  /** A reader stores, one gap late, what an update has just replaced; the copy deleted after the
      update is then back. */
  function SlowReader(gap: nat): seq<Event> {
    [ Create, ReadRow(0), Update(Confirmed, 1), DeleteCached(true), Wait(gap), StoreAndReturn(0, true), Wait(CACHE_TTL),
      ReadCached ]
  }

  function SlowReaderStates(gap: nat): seq<State> {
    var stale, current := Order(Pending, 1), Order(Confirmed, 2);
    var c1 := [Change(0, None), Change(0, Some(stale))];
    var c2 := c1 + [Change(0, Some(current))];
    var row1, row2 := Some(Row(stale, false)), Some(Row(current, false));
    var cached := Some(Cached(stale, gap + CACHE_TTL));
    [ Start(0),
      State(0, row1, c1, None, map[], []),
      State(0, row1, c1, None, map[0 := Read(stale, 0)], []),
      State(0, row2, c2, None, map[0 := Read(stale, 0)], []),
      State(0, row2, c2, None, map[0 := Read(stale, 0)], []),
      State(gap, row2, c2, None, map[0 := Read(stale, 0)], []),
      State(gap, row2, c2, cached, map[], [Read(stale, gap)]),
      State(gap + CACHE_TTL, row2, c2, cached, map[], [Read(stale, gap)]),
      State(gap + CACHE_TTL, row2, c2, cached, map[], [Read(stale, gap), Read(stale, gap + CACHE_TTL)]) ]
  }

  lemma SlowReaderRun(gap: nat)
    ensures IsRun(SlowReaderStates(gap), SlowReader(gap), gap)
  {
    var states, events := SlowReaderStates(gap), SlowReader(gap);
    forall i: nat | i < 8
      ensures Step(states[i], events[i], states[i + 1], gap)
    {
      if i < 4 {
        if i == 0 {} else if i == 1 {} else if i == 2 {} else {}
      } else {
        if i == 4 {} else if i == 5 {} else if i == 6 {} else {}
      }
    }
  }

  /** The bound is met exactly: for every gap some run, in which every delete of the cached copy works,
      returns a value that was last held one gap and one TTL before. */
  lemma StalenessTight(gap: nat)
    ensures exists states: seq<State>, events: seq<Event> ::
              && IsRun(states, events, gap) && |events| == 8
              && DeleteCached(false) !in events
              && states[8].returned == [Read(Order(Pending, 1), gap), Read(Order(Pending, 1), gap + 300_000)]
              && forall u :: HeldAt(states[8].changes, Order(Pending, 1), u) ==> u == 0
  {
    SlowReaderRun(gap);
    var states := SlowReaderStates(gap);
    forall u | HeldAt(states[8].changes, Order(Pending, 1), u)
      ensures u == 0
    {
      var i: nat :| i < 3 && HeldFrom(states[8].changes, Order(Pending, 1), u, i);
    }
    hide IsRun, HeldAt;
    assert DeleteCached(false) !in SlowReader(gap);
  }

  // ---------- versions ----------

  /** Versions start at 1 and grow with every visible change. */
  ghost predicate Ordered(s: State) {
    && (forall i :: 0 <= i < |s.changes| && s.changes[i].order.Some? ==>
          s.row.Some? && 1 <= s.changes[i].order.value.version <= s.row.value.order.version)
    && (forall i, j :: 0 <= i < j < |s.changes| && s.changes[i].order.Some? && s.changes[j].order.Some? ==>
          s.changes[i].order.value.version < s.changes[j].order.value.version)
    && s.changes != [] && s.changes[|s.changes| - 1].order == Visible(s.row)
    && (s.row.Some? ==> s.row.value.order.version >= 1)
  }

  lemma StepOrdered(s: State, e: Event)
    requires Ordered(s) && Enabled(s, e)
    ensures Ordered(Next(s, e))
    ensures Grows(s, Next(s, e))
  {
    match e
    case Create => WriteOrdered(s, Inserted(s.row));
    case Update(status, version) => WriteOrdered(s, Updated(s.row, status, version).0);
    case Remove => WriteOrdered(s, SoftDeleted(s.row));
    case _ =>
  }

  lemma WriteOrdered(s: State, row: Option<Row>)
    requires Ordered(s)
    requires s.row.Some? ==> row.Some? && s.row.value.order.version <= row.value.order.version
    requires row.Some? ==> row.value.order.version >= 1
    requires s.row.Some? && row != s.row && Visible(row).Some? ==> s.row.value.order.version < row.value.order.version
    ensures Ordered(Written(s, row)) && Grows(s, Written(s, row))
  {
  }

  /** From one state to a later one the row's version and the history only grow. */
  ghost predicate Grows(s: State, s': State) {
    && (s.row.Some? ==> s'.row.Some? && s.row.value.order.version <= s'.row.value.order.version)
    && s.changes <= s'.changes
  }

  lemma {:induction false} RunOrdered(states: seq<State>, events: seq<Event>, gap: nat, i: nat, n: nat)
    requires IsRun(states, events, gap) && i <= n <= |events|
    ensures Ordered(states[n])
    ensures Grows(states[i], states[n])
  {
    if n > 0 {
      var p := n - 1;
      RunOrdered(states, events, gap, if i < n then i else p, p);
      assert Step(states[p], events[p], states[n], gap);
      StepOrdered(states[p], events[p]);
      hide Next, Ordered;
    }
  }

  /** Event i is an update that matched the row. */
  ghost predicate Succeeds(states: seq<State>, events: seq<Event>, i: nat)
    requires i < |events| && i < |states|
  {
    events[i].Update? && Updated(states[i].row, events[i].status, events[i].version).1
  }

  /** Each version is produced by at most one successful update, and versions only grow. */
  lemma VersionsGrow(states: seq<State>, events: seq<Event>, gap: nat, i: nat, j: nat)
    requires IsRun(states, events, gap) && i < j < |events|
    requires Succeeds(states, events, i) && Succeeds(states, events, j)
    ensures events[i].version < events[j].version
  {
    assert Step(states[i], events[i], states[i + 1], gap);
    RunOrdered(states, events, gap, i + 1, j);
  }

  /** An update made from a value that was read, from the cache or the database and however long ago,
      succeeds only if that value is still the current one. */
  lemma NoStaleUpdate(states: seq<State>, events: seq<Event>, gap: nat, n: nat, k: nat, i: nat)
    requires IsRun(states, events, gap) && n <= i < |events| && k < |states[n].returned|
    requires events[i].Update? && events[i].version == states[n].returned[k].order.version
    ensures Succeeds(states, events, i) <==> Visible(states[i].row) == Some(states[n].returned[k].order)
  {
    var order := states[n].returned[k].order;
    BoundedStaleness(states, events, gap, n, k);
    RunOrdered(states, events, gap, n, i);
    var u :| HeldAt(states[n].changes, order, u);
    var c := HeldIndex(states[n].changes, order, u);
    assert states[i].changes[c].order == Some(order);
  }

  /** In every reachable state an update with version 0, which is what Cancel makes, fails. */
  lemma CancelNeverSucceeds(states: seq<State>, events: seq<Event>, gap: nat, i: nat)
    requires IsRun(states, events, gap) && i < |events| && events[i] == Update(Cancelled, 0)
    ensures !Succeeds(states, events, i)
  {
    RunOrdered(states, events, gap, i, i);
  }

  /** A removed order stays removed: from then on nobody reads it from the database, no update of it
      succeeds, whatever its version, and creating it again changes nothing. */
  lemma {:induction false} RemovedForGood(states: seq<State>, events: seq<Event>, gap: nat, i: nat, n: nat)
    requires IsRun(states, events, gap) && i < n <= |events| && events[i].Remove? && states[i].row.Some?
    ensures states[n].row == Some(Row(states[i].row.value.order, true))
    ensures Visible(states[n].row) == None
    ensures n < |events| ==> !events[n].ReadRow? && !Succeeds(states, events, n)
  {
    if n > i + 1 {
      RemovedForGood(states, events, gap, i, n - 1);
    }
    assert Step(states[n - 1], events[n - 1], states[n], gap);
    if n < |events| {
      assert Step(states[n], events[n], states[n + 1], gap);
    }
  }

  /** Once the cached copy is deleted it is not read again before some reader stores a new one. */
  lemma {:induction false} DeletedUntilStored(states: seq<State>, events: seq<Event>, gap: nat, i: nat, n: nat)
    requires IsRun(states, events, gap) && i < n <= |events| && events[i] == DeleteCached(true)
    requires forall k: nat :: i < k < n ==> !(events[k].StoreAndReturn? && events[k].up)
    ensures states[n].cache == None
    ensures n < |events| ==> !events[n].ReadCached?
  {
    if n > i + 1 {
      DeletedUntilStored(states, events, gap, i, n - 1);
    }
    assert Step(states[n - 1], events[n - 1], states[n], gap);
    if n < |events| {
      assert Step(states[n], events[n], states[n + 1], gap);
    }
  }
}
