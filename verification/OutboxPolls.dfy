/** The relay's poll method as steps of the state machine: what is proved of all runs holds of the
    code's polls, and every state a run reaches is one the progress results can start from. */
module OutboxPolls {
  import opened Wrappers
  import opened Outbox
  import opened OutboxSafety
  import P = RelayProgress

  /** The state after some steps, if they are enabled one after the other. */
  ghost function After(s: State, events: seq<Event>): Option<State> {
    if events == [] then Some(s)
    else
      var before := After(s, events[..|events| - 1]);
      if before.Some? && Enabled(before.value, events[|events| - 1])
      then Some(Next(before.value, events[|events| - 1])) else None
  }

  lemma AfterOne(s: State, events: seq<Event>, e: Event)
    requires After(s, events).Some? && Enabled(After(s, events).value, e)
    ensures After(s, events + [e]) == Some(Next(After(s, events).value, e))
  {
    assert (events + [e])[..|events + [e]| - 1] == events;
  }

  /** A query, and the rounds and status writes of the first k entries. */
  function Rounds(q: RelayId, now: int, limit: nat, batch: seq<Row>, inputs: nat -> Input, k: nat): seq<Event> {
    if k == 0 then [Fetch(q, now, limit, batch)]
    else
      Rounds(q, now, limit, batch, inputs, k - 1)
      + [PublishRound(q, inputs(k - 1).env, inputs(k - 1).now)]
      + [WriteStatus(q, inputs(k - 1).writeUp)]
  }

  function WholePoll(q: RelayId, now: int, limit: nat, batch: seq<Row>, inputs: nat -> Input, k: nat): seq<Event> {
    Rounds(q, now, limit, batch, inputs, k) + [Drop(q)]
  }

  /** One entry: a round, then its status write. */
  lemma EntrySteps(s: State, q: RelayId, rest: seq<Row>, input: Input) returns (mid: State, end: State)
    requires q in s.hands && s.hands[q] == Hand(rest, None) && rest != []
    ensures Enabled(s, PublishRound(q, input.env, input.now)) && mid == Next(s, PublishRound(q, input.env, input.now))
    ensures Enabled(mid, WriteStatus(q, input.writeUp)) && end == Next(mid, WriteStatus(q, input.writeUp))
    ensures end.topics == s.topics && end.tables.orders == s.tables.orders
    ensures end.hands == s.hands[q := Hand(rest[1..], None)]
    ensures end.tables.rows == HandleOne(s.tables.rows, s.topics, rest[0], input)
    ensures end.log == s.log + Copies(RecordOf(rest[0]), RunRound(s.topics, rest[0], input.env, input.now).appended)
  {
    hide RunRound, PermanentCause, Applied, RecordOf;
    mid := Next(s, PublishRound(q, input.env, input.now));
    end := Next(mid, WriteStatus(q, input.writeUp));
  }

  /** What has happened once k entries are handled. */
  ghost predicate Handled(s: State, s': State, q: RelayId, batch: seq<Row>, inputs: nat -> Input, k: nat)
    requires k <= |batch|
  {
    && s'.topics == s.topics && s'.tables.orders == s.tables.orders
    && s'.hands == s.hands[q := Hand(batch[k..], None)]
    && s'.tables.rows == HandleAll(s.tables.rows, s.topics, batch[..k], inputs)
    && s'.log == s.log + SentAll(s.topics, batch[..k], inputs)
  }

  lemma HandledOneMore(s: State, a: State, b: State, q: RelayId, batch: seq<Row>, inputs: nat -> Input, k: nat)
    requires k < |batch| && Handled(s, a, q, batch, inputs, k)
    requires b.topics == a.topics && b.tables.orders == a.tables.orders
    requires b.hands == a.hands[q := Hand(batch[k + 1..], None)]
    requires b.tables.rows == HandleOne(a.tables.rows, a.topics, batch[k], inputs(k))
    requires b.log == a.log + Copies(RecordOf(batch[k]), RunRound(a.topics, batch[k], inputs(k).env, inputs(k).now).appended)
    ensures Handled(s, b, q, batch, inputs, k + 1)
  {
    hide RunRound, HandleOne, RecordOf;
    assert batch[..k + 1][..k] == batch[..k];
    assert HandleAll(s.tables.rows, s.topics, batch[..k + 1], inputs)
        == HandleOne(HandleAll(s.tables.rows, s.topics, batch[..k], inputs), s.topics, batch[k], inputs(k));
  }

  lemma {:induction false} RoundsSteps(s: State, q: RelayId, now: int, limit: nat, batch: seq<Row>, inputs: nat -> Input, k: nat)
    requires Enabled(s, Fetch(q, now, limit, batch)) && k <= |batch|
    ensures After(s, Rounds(q, now, limit, batch, inputs, k)).Some?
    ensures Handled(s, After(s, Rounds(q, now, limit, batch, inputs, k)).value, q, batch, inputs, k)
  {
    if k == 0 {
      FetchHandled(s, q, now, limit, batch, inputs);
    } else {
      RoundsSteps(s, q, now, limit, batch, inputs, k - 1);
      OneMoreRound(s, q, now, limit, batch, inputs, k - 1);
    }
  }

  lemma FetchHandled(s: State, q: RelayId, now: int, limit: nat, batch: seq<Row>, inputs: nat -> Input)
    requires Enabled(s, Fetch(q, now, limit, batch))
    ensures After(s, [Fetch(q, now, limit, batch)]).Some?
    ensures Handled(s, After(s, [Fetch(q, now, limit, batch)]).value, q, batch, inputs, 0)
  {
    hide IsBatch, RunRound;
    assert batch[0..] == batch && batch[..0] == [];
    assert After(s, []) == Some(s);
    AfterOne(s, [], Fetch(q, now, limit, batch));
    assert [] + [Fetch(q, now, limit, batch)] == [Fetch(q, now, limit, batch)];
    assert s.log + [] == s.log;
  }

  lemma OneMoreRound(s: State, q: RelayId, now: int, limit: nat, batch: seq<Row>, inputs: nat -> Input, k: nat)
    requires k < |batch|
    requires After(s, Rounds(q, now, limit, batch, inputs, k)).Some?
    requires Handled(s, After(s, Rounds(q, now, limit, batch, inputs, k)).value, q, batch, inputs, k)
    ensures After(s, Rounds(q, now, limit, batch, inputs, k + 1)).Some?
    ensures Handled(s, After(s, Rounds(q, now, limit, batch, inputs, k + 1)).value, q, batch, inputs, k + 1)
  {
    hide After, Next, Enabled, RunRound, HandleOne, RecordOf, HandleAll, SentAll;
    var events := Rounds(q, now, limit, batch, inputs, k);
    var a := After(s, events).value;
    var rest := batch[k..];
    assert rest[0] == batch[k] && rest[1..] == batch[k + 1..];
    var mid, b := EntrySteps(a, q, rest, inputs(k));
    var round := PublishRound(q, inputs(k).env, inputs(k).now);
    AfterOne(s, events, round);
    AfterOne(s, events + [round], WriteStatus(q, inputs(k).writeUp));
    HandledOneMore(s, a, b, q, batch, inputs, k);
  }

  /** A poll that handles k entries of its batch leaves rows and broker as the poll method does, and
      everything else, other relays' hands included, as it was. */
  lemma PollIsSteps(s: State, q: RelayId, now: int, limit: nat, batch: seq<Row>, inputs: nat -> Input, k: nat)
    requires q !in s.hands && IsBatch(s.tables.rows, now, limit, batch) && k <= |batch|
    ensures var after := After(s, WholePoll(q, now, limit, batch, inputs, k));
            && after.Some?
            && after.value.tables.rows == HandleAll(s.tables.rows, s.topics, batch[..k], inputs)
            && after.value.log == s.log + SentAll(s.topics, batch[..k], inputs)
            && after.value.tables.orders == s.tables.orders && after.value.topics == s.topics
            && after.value.hands == s.hands
  {
    hide After, RunRound, HandleAll, SentAll, IsBatch;
    RoundsSteps(s, q, now, limit, batch, inputs, k);
    AfterOne(s, Rounds(q, now, limit, batch, inputs, k), Drop(q));
  }

  /** Enabled steps from a reached state go on with the run. */
  lemma {:induction false} RunGoesOn(states: seq<State>, events: seq<Event>, more: seq<Event>) returns (states': seq<State>)
    requires IsRun(states, events) && After(states[|events|], more).Some?
    ensures IsRun(states', events + more)
    ensures states'[|events + more|] == After(states[|events|], more).value
  {
    if more == [] {
      assert events + more == events;
      states' := states;
    } else {
      var n := |more| - 1;
      var first := RunGoesOn(states, events, more[..n]);
      assert events + more == events + more[..n] + [more[n]];
      hide Next, Enabled, Start;
      states' := first + [After(states[|events|], more).value];
    }
  }

  /** Progress starts from any reachable state. */
  lemma ReachableIsSound(states: seq<State>, events: seq<Event>, n: nat)
    requires IsRun(states, events) && n <= |events|
    ensures P.Sound(states[n].tables.rows)
  {
    RunRowsInv(states, events, n);
    RunRelayInv(states, events, n);
    forall id | id in states[n].tables.rows
      ensures RowOk(states[n], id)
    {
    }
  }

  /** So after any poll made in a reachable state all results about runs hold again: an order has its
      one event row, statuses have their causes, and the rows are ready for the next poll. */
  lemma PollStaysReachable(states: seq<State>, events: seq<Event>, q: RelayId, now: int, limit: nat, batch: seq<Row>, inputs: nat -> Input, k: nat)
      returns (states': seq<State>, events': seq<Event>)
    requires IsRun(states, events)
    requires var s := states[|events|];
             q !in s.hands && IsBatch(s.tables.rows, now, limit, batch) && k <= |batch|
    ensures IsRun(states', events') && events <= events'
    ensures var (s, s') := (states[|events|], states'[|events'|]);
            s'.tables.rows == HandleAll(s.tables.rows, s.topics, batch[..k], inputs) && P.Sound(s'.tables.rows)
  {
    hide After, RunRound, HandleAll, SentAll, IsBatch, Next, Enabled;
    var s := states[|events|];
    PollIsSteps(s, q, now, limit, batch, inputs, k);
    var more := WholePoll(q, now, limit, batch, inputs, k);
    events' := events + more;
    states' := RunGoesOn(states, events, more);
    ReachableIsSound(states', events', |events'|);
  }
}
