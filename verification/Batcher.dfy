/** The batcher: messages collect in a buffer and leave in batches, when the batch is full, when the
    timer fires, and at shutdown.  Behind the dispatcher it keeps the order of every key. */
module Batcher {
  import opened Wrappers
  import opened Sequences
  import D = Dispatcher

  type Message = D.Message

  /** The buffer, whether the batcher has stopped, and two histories: the batches in the order they
      were flushed, and the messages that were accepted. */
  datatype State = State(buffer: seq<Message>, stopped: bool, batches: seq<seq<Message>>, accepted: seq<Message>)

  const EMPTY := State([], false, [], [])

  datatype Event = Add(msg: Message) | TimerFlush | Shutdown

  /** flushLocked hands the buffer to the handler and starts a new one. */
  function Flushed(s: State): State {
    s.(batches := s.batches + [s.buffer], buffer := [])
  }

  function Next(s: State, size: nat, e: Event): State {
    if s.stopped then s
    else
      match e
      case Add(m) =>
        var s1 := s.(buffer := s.buffer + [m], accepted := s.accepted + [m]);
        if |s1.buffer| >= size then Flushed(s1) else s1
      case TimerFlush => if s.buffer != [] then Flushed(s) else s
      case Shutdown =>
        var s1 := s.(stopped := true);
        if s.buffer != [] then Flushed(s1) else s1
  }

  function Limit(size: nat): nat { if size == 0 then 1 else size }

  /** Nothing is lost, doubled or reordered; batches are neither empty nor too long; the buffer never
      reaches a full batch, and is empty after shutdown. */
  ghost predicate Inv(s: State, size: nat) {
    && Flatten(s.batches) + s.buffer == s.accepted
    && (forall i :: 0 <= i < |s.batches| ==> 1 <= |s.batches[i]| <= Limit(size))
    && |s.buffer| < Limit(size)
    && (s.stopped ==> s.buffer == [])
  }

  lemma FlushInv(s: State, size: nat)
    requires Flatten(s.batches) + s.buffer == s.accepted && 1 <= |s.buffer| <= Limit(size)
    requires forall i :: 0 <= i < |s.batches| ==> 1 <= |s.batches[i]| <= Limit(size)
    ensures Inv(Flushed(s), size)
  {
    hide Flatten;
    FlattenSnoc(s.batches, s.buffer);
    assert Flatten(s.batches) + s.buffer + [] == s.accepted;
  }

  lemma AddInv(s: State, size: nat, m: Message)
    requires Inv(s, size)
    ensures Inv(Next(s, size, Add(m)), size)
  {
    hide Flatten, Flushed;
    if !s.stopped {
      var s1 := s.(buffer := s.buffer + [m], accepted := s.accepted + [m]);
      assert Flatten(s.batches) + s1.buffer == s1.accepted;
      if |s1.buffer| >= size {
        FlushInv(s1, size);
      }
    }
  }

  lemma StepInv(s: State, size: nat, e: Event)
    requires Inv(s, size)
    ensures Inv(Next(s, size, e), size)
  {
    hide Flatten;
    match e
    case Add(m) => AddInv(s, size, m);
    case TimerFlush =>
      if s.buffer != [] {
        FlushInv(s, size);
      }
    case Shutdown =>
      if s.buffer != [] {
        FlushInv(s.(stopped := true), size);
      }
  }

  /** When batches leave: a timer or a shutdown empties the buffer, in one batch if there is anything in
      it; an add flushes exactly the full buffer, so that only a timer or a shutdown makes a short batch. */
  lemma FlushesExactly(s: State, size: nat, e: Event)
    requires Inv(s, size)
    ensures var s' := Next(s, size, e);
            && (s.stopped ==> s' == s)
            && (!e.Add? ==> s'.buffer == [] && s'.batches == s.batches + (if s.buffer == [] then [] else [s.buffer]))
            && (e.Add? && !s.stopped ==>
                  (s'.batches == s.batches && s'.buffer == s.buffer + [e.msg] && |s'.buffer| < Limit(size))
                  || (s'.batches == s.batches + [s.buffer + [e.msg]] && s'.buffer == [] && |s.buffer + [e.msg]| == Limit(size)))
            && (s'.stopped <==> s.stopped || e == Shutdown)
  {
    hide Flatten;
  }

  class Buffer {
    const size: nat
    var buffer: seq<Message>
    var stopped: bool
    ghost var batches: seq<seq<Message>>
    ghost var accepted: seq<Message>

    ghost function View(): State
      reads this
    {
      State(buffer, stopped, batches, accepted)
    }

    constructor (size: nat)
      ensures View() == EMPTY && this.size == size && Inv(View(), size)
    {
      this.size := size;
      buffer, stopped := [], false;
      batches, accepted := [], [];
    }

    /** Returns the batch it hands to the handler, if it flushes. */
    method AddMessage(m: Message) returns (flushed: Option<seq<Message>>)
      requires Inv(View(), size)
      modifies this
      ensures View() == Next(old(View()), size, Add(m)) && Inv(View(), size)
      ensures batches == old(batches) + if flushed.Some? then [flushed.value] else []
    {
      StepInv(View(), size, Add(m));
      flushed := None;
      if stopped {
        return;
      }
      buffer := buffer + [m];
      accepted := accepted + [m];
      if |buffer| >= size {
        var batch := FlushLocked();
        flushed := Some(batch);
      }
    }

    method FlushLocked() returns (batch: seq<Message>)
      modifies this
      ensures View() == Flushed(old(View())) && batch == old(buffer)
    {
      batch := buffer;
      buffer := [];
      batches := batches + [batch];
    }

    method OnTimer() returns (flushed: Option<seq<Message>>)
      requires Inv(View(), size)
      modifies this
      ensures View() == Next(old(View()), size, TimerFlush) && Inv(View(), size)
      ensures batches == old(batches) + if flushed.Some? then [flushed.value] else []
    {
      StepInv(View(), size, TimerFlush);
      flushed := None;
      if stopped {
        return;
      }
      if |buffer| > 0 {
        var batch := FlushLocked();
        flushed := Some(batch);
      }
    }

    method Stop() returns (flushed: Option<seq<Message>>)
      requires Inv(View(), size)
      modifies this
      ensures View() == Next(old(View()), size, Shutdown) && Inv(View(), size)
      ensures stopped && buffer == []
      ensures batches == old(batches) + if flushed.Some? then [flushed.value] else []
    {
      StepInv(View(), size, Shutdown);
      flushed := None;
      if stopped {
        return;
      }
      stopped := true;
      if |buffer| > 0 {
        var batch := FlushLocked();
        flushed := Some(batch);
      }
    }
  }

  // ---------- every run of the batcher ----------

  function Run(size: nat, events: seq<Event>): State {
    if events == [] then EMPTY else Next(Run(size, events[..|events| - 1]), size, events[|events| - 1])
  }

  /** The messages added before the first shutdown. */
  function AddedBeforeShutdown(events: seq<Event>): seq<Message> {
    if events == [] then []
    else if events[0] == Shutdown then []
    else (if events[0].Add? then [events[0].msg] else []) + AddedBeforeShutdown(events[1..])
  }

  lemma {:induction false} RunInv(size: nat, events: seq<Event>)
    ensures Inv(Run(size, events), size)
  {
    if events != [] {
      RunInv(size, events[..|events| - 1]);
      StepInv(Run(size, events[..|events| - 1]), size, events[|events| - 1]);
    }
  }

  lemma {:induction false} AddedSnoc(events: seq<Event>, e: Event)
    ensures AddedBeforeShutdown(events + [e])
            == AddedBeforeShutdown(events) + if e.Add? && Shutdown !in events then [e.msg] else []
  {
    if events != [] {
      assert (events + [e])[1..] == events[1..] + [e];
      AddedSnoc(events[1..], e);
    }
  }

  lemma {:induction false} RunAccepts(size: nat, events: seq<Event>)
    ensures Run(size, events).stopped <==> Shutdown in events
    ensures Run(size, events).accepted == AddedBeforeShutdown(events)
  {
    if events != [] {
      var n := |events| - 1;
      assert events == events[..n] + [events[n]];
      RunAccepts(size, events[..n]);
      AddedSnoc(events[..n], events[n]);
    }
  }

  /** For any sequence of adds, timer flushes and shutdowns: the batches in flush order, followed by
      the buffer, are exactly the messages added before the shutdown, in order; every batch holds
      between one and max(Size, 1) messages; after a shutdown nothing is left in the buffer. */
  lemma Conserves(size: nat, events: seq<Event>)
    ensures var s := Run(size, events);
            && Flatten(s.batches) + s.buffer == AddedBeforeShutdown(events)
            && (forall i :: 0 <= i < |s.batches| ==> 1 <= |s.batches[i]| <= Limit(size))
            && (Shutdown in events ==> s.buffer == [])
  {
    RunInv(size, events);
    RunAccepts(size, events);
  }

  // ---------- behind the dispatcher ----------

  /** The dispatcher whose handler adds to a batcher; the timer and the shutdown act beside it. */
  datatype Consumer = Consumer(pool: D.State, batcher: State)

  datatype ConsumerEvent = Pool(e: D.Event) | Timer | StopBatcher

  predicate Enabled(c: Consumer, capacity: nat, e: ConsumerEvent) {
    e.Pool? ==> D.Enabled(c.pool, capacity, e.e)
  }

  function NextConsumer(c: Consumer, capacity: nat, size: nat, e: ConsumerEvent): Consumer
    requires Enabled(c, capacity, e)
  {
    match e
    case Pool(Finish(w, ending)) =>
      Consumer(D.Next(c.pool, capacity, e.e), Next(c.batcher, size, Add(c.pool.workers[w].inHand.value)))
    case Pool(other) => c.(pool := D.Next(c.pool, capacity, e.e))
    case Timer => c.(batcher := Next(c.batcher, size, TimerFlush))
    case StopBatcher => c.(batcher := Next(c.batcher, size, Shutdown))
  }

  ghost predicate IsRun(cs: seq<Consumer>, events: seq<ConsumerEvent>, workers: nat, capacity: nat, size: nat) {
    && workers > 0
    && |cs| == |events| + 1
    && cs[0] == Consumer(D.Start(workers), EMPTY)
    && forall i: nat :: i < |events| ==>
         Enabled(cs[i], capacity, events[i]) && cs[i + 1] == NextConsumer(cs[i], capacity, size, events[i])
  }

  /** What the batcher accepted is what the handlers were given, up to the batcher's shutdown. */
  ghost predicate Linked(c: Consumer, size: nat) {
    && D.Inv(c.pool)
    && Inv(c.batcher, size)
    && c.batcher.accepted <= c.pool.handled
    && (!c.batcher.stopped ==> c.batcher.accepted == c.pool.handled)
  }

  lemma StepLinked(c: Consumer, capacity: nat, size: nat, e: ConsumerEvent)
    requires Linked(c, size) && Enabled(c, capacity, e)
    ensures Linked(NextConsumer(c, capacity, size, e), size)
  {
    hide D.Inv, Inv;
    match e
    case Pool(pe) =>
      D.StepInv(c.pool, capacity, pe);
      if pe.Finish? {
        StepInv(c.batcher, size, Add(c.pool.workers[pe.w].inHand.value));
      }
    case Timer => StepInv(c.batcher, size, TimerFlush);
    case StopBatcher => StepInv(c.batcher, size, Shutdown);
  }

  lemma {:induction false} RunLinked(cs: seq<Consumer>, events: seq<ConsumerEvent>, workers: nat, capacity: nat, size: nat, n: nat)
    requires IsRun(cs, events, workers, capacity, size) && n <= |events|
    ensures Linked(cs[n], size)
  {
    if n == 0 {
      D.StartInv(workers);
    } else {
      RunLinked(cs, events, workers, capacity, size, n - 1);
      StepLinked(cs[n - 1], capacity, size, events[n - 1]);
    }
  }

  /** Over every run of dispatcher and batcher together, whatever the order in which they stop: read
      off the batches in flush order and then the buffer, the messages of each key are a prefix of
      the messages dispatched under it. */
  lemma KeyOrderInBatches(cs: seq<Consumer>, events: seq<ConsumerEvent>, workers: nat, capacity: nat, size: nat, n: nat, key: seq<bv8>)
    requires IsRun(cs, events, workers, capacity, size) && n <= |events|
    ensures Filter(Flatten(cs[n].batcher.batches) + cs[n].batcher.buffer, D.HasKey(key))
            <= Filter(cs[n].pool.dispatched, D.HasKey(key))
  {
    RunLinked(cs, events, workers, capacity, size, n);
    D.PerKeyOrder(cs[n].pool, key);
    FilterPrefix(cs[n].batcher.accepted, cs[n].pool.handled, D.HasKey(key));
  }
}
