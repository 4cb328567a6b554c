/** A consumed message, and the dispatcher that spreads messages over workers by key. */
module Dispatcher {
  import opened Wrappers
  import opened Sequences

  /** The key is the byte string Kafka delivers. */
  datatype Message = Message(topic: string, key: seq<bv8>, partition: int, offset: int)

  // ---------- sharding ----------

  const OFFSET_BASIS: bv32 := 2166136261
  const PRIME: bv32 := 16777619

  /** FNV-1a, 32 bits. */
  function Fnv32a(key: seq<bv8>): bv32 {
    if key == [] then OFFSET_BASIS else Mix(Fnv32a(key[..|key| - 1]), key[|key| - 1])
  }

  function Mix(h: bv32, b: bv8): bv32 {
    (h ^ (b as bv32)) * PRIME
  }

  function Hash(key: seq<bv8>): (h: int)
    ensures 0 <= h < 0x1_0000_0000
  {
    Fnv32a(key) as int
  }

  /** int(h) where int has 64 or 32 bits. */
  function ToInt(h: int, wide: bool): int {
    if wide || h < 0x8000_0000 then h else h - 0x1_0000_0000
  }

  /** Go's remainder takes the sign of the dividend. */
  function Rem(a: int, n: int): int
    requires n > 0
  {
    if a >= 0 then a % n else -(-a % n)
  }

  function ShardIndex(key: seq<bv8>, workers: int, wide: bool): int
    requires workers > 0
  {
    if key == [] || workers == 1 then 0 else Rem(ToInt(Hash(key), wide), workers)
  }

  /** The index is in range for every key where int has 64 bits; where it has 32, exactly for the
      keys whose hash has its top bit clear or wraps to a multiple of the worker count. */
  lemma ShardInRange(key: seq<bv8>, workers: int)
    requires workers > 0
    ensures 0 <= ShardIndex(key, workers, true) < workers
    ensures 0 <= ShardIndex(key, workers, false) < workers <==>
              || key == [] || workers == 1
              || Hash(key) < 0x8000_0000
              || (0x1_0000_0000 - Hash(key)) % workers == 0
  {
    hide Hash;
    var h := Hash(key);
    if h >= 0x8000_0000 {
      assert 0 <= (0x1_0000_0000 - h) % workers < workers;
    }
    assert 0 <= h % workers < workers;
  }

  /** Where int has 64 bits the index differs from the hash by a multiple of the worker count; the empty
      key goes to the first worker. */
  lemma ShardIsResidue(key: seq<bv8>, workers: int)
    requires workers > 0
    ensures key == [] ==> ShardIndex(key, workers, true) == 0
    ensures key != [] ==> exists q :: Hash(key) == q * workers + ShardIndex(key, workers, true)
  {
    hide Hash;
    if key != [] {
      var h := Hash(key);
      assert h == h / workers * workers + h % workers;
      if workers == 1 {
        assert h == h * workers + ShardIndex(key, workers, true);
      } else {
        assert h == h / workers * workers + ShardIndex(key, workers, true);
      }
    }
  }

  /** The hash of "foobar", a test vector of 32-bit FNV-1a. */
  lemma FnvVector()
    ensures Fnv32a([0x66, 0x6f, 0x6f, 0x62, 0x61, 0x72]) == 0xbf9cf968
  {
    hide Fnv32a, Mix;
    FnvNothing();
    FnvStep([], 0x66);
    FnvStep([0x66], 0x6f);
    FnvStep([0x66, 0x6f], 0x6f);
    FnvStep([0x66, 0x6f, 0x6f], 0x62);
    FnvStep([0x66, 0x6f, 0x6f, 0x62], 0x61);
    FnvStep([0x66, 0x6f, 0x6f, 0x62, 0x61], 0x72);
    MixVectors();
    var k: seq<bv8> := [0x66, 0x6f, 0x6f, 0x62, 0x61, 0x72];
    assert [] + [k[0]] == [k[0]] && [k[0]] + [k[1]] == [k[0], k[1]] && [k[0], k[1]] + [k[2]] == [k[0], k[1], k[2]];
    assert [k[0], k[1], k[2]] + [k[3]] == [k[0], k[1], k[2], k[3]];
    assert [k[0], k[1], k[2], k[3]] + [k[4]] == [k[0], k[1], k[2], k[3], k[4]];
    assert [k[0], k[1], k[2], k[3], k[4]] + [k[5]] == k;
  }

  lemma MixVectors()
    ensures Mix(0x811c9dc5, 0x66) == 0xe30c2799
    ensures Mix(0xe30c2799, 0x6f) == 0x6222e842
    ensures Mix(0x6222e842, 0x6f) == 0xa9f37ed7
    ensures Mix(0xa9f37ed7, 0x62) == 0x3f5076ef
    ensures Mix(0x3f5076ef, 0x61) == 0x39aaa18a
    ensures Mix(0x39aaa18a, 0x72) == 0xbf9cf968
  {
  }

  lemma FnvNothing()
    ensures Fnv32a([]) == 0x811c9dc5
  {
  }

  lemma FnvStep(key: seq<bv8>, b: bv8)
    ensures Fnv32a(key + [b]) == Mix(Fnv32a(key), b)
  {
    hide Mix;
    assert (key + [b])[..|key|] == key;
  }

  /** With four workers and a 32-bit int the key "b" gets a negative index. */
  lemma NarrowIntFails()
    ensures ShardIndex([98], 4, false) == -3
  {
    var key := [98 as bv8];
    assert key[..0] == [];
    assert Fnv32a([]) == OFFSET_BASIS;
    assert Fnv32a(key) == (OFFSET_BASIS ^ 98) * PRIME;
    assert (OFFSET_BASIS ^ 98) * PRIME == 3876335077;
    assert Hash(key) == 3876335077;
  }

  // ---------- workers and their queues ----------

  datatype Worker = Worker(queue: seq<Message>, inHand: Option<Message>, exited: bool) {
    /** Everything sent to the worker and not yet handled, in order. */
    function Pending(): seq<Message> {
      (if inHand.Some? then [inHand.value] else []) + queue
    }

    function Bag(): multiset<Message> {
      multiset(Pending())
    }

    /** The channel takes one more message; without a buffer only an idle worker does. */
    predicate Room(capacity: nat) {
      |queue| < capacity || (queue == [] && inHand == None)
    }
  }

  /** The workers, whether their channels are closed, and two histories: the messages in the order
      their sends completed, and in the order their handlers ended. */
  datatype State = State(workers: seq<Worker>, closed: bool, dispatched: seq<Message>, handled: seq<Message>)

  datatype Ending = Returned | ReturnedError | Panicked

  datatype Event =
    | Dispatch(msg: Message)
    | Take(w: nat)                    // the worker receives from its channel
    | Finish(w: nat, ending: Ending)  // its handler ends; a panic is recovered
    | Close                           // Shutdown closes the channels
    | Exit(w: nat)                    // the worker sees the closed, empty channel

  function Shard(m: Message, workers: int): int
    requires workers > 0
  {
    ShardIndex(m.key, workers, true)
  }

  predicate Enabled(s: State, capacity: nat, e: Event) {
    && |s.workers| > 0
    && match e
       case Dispatch(m) =>
         ShardInRange(m.key, |s.workers|);
         !s.closed && s.workers[Shard(m, |s.workers|)].Room(capacity)
       case Take(w) => w < |s.workers| && s.workers[w].inHand == None && s.workers[w].queue != []
       case Finish(w, _) => w < |s.workers| && s.workers[w].inHand.Some?
       case Close => !s.closed
       case Exit(w) => w < |s.workers| && s.closed && s.workers[w] == Worker([], None, false)
  }

  function Next(s: State, capacity: nat, e: Event): State
    requires Enabled(s, capacity, e)
  {
    match e
    case Dispatch(m) =>
      ShardInRange(m.key, |s.workers|);
      var i := Shard(m, |s.workers|);
      var worker := s.workers[i];
      s.(workers := s.workers[i := worker.(queue := worker.queue + [m])], dispatched := s.dispatched + [m])
    case Take(w) =>
      var worker := s.workers[w];
      s.(workers := s.workers[w := worker.(queue := worker.queue[1..], inHand := Some(worker.queue[0]))])
    case Finish(w, _) =>
      var worker := s.workers[w];
      s.(workers := s.workers[w := worker.(inHand := None)], handled := s.handled + [worker.inHand.value])
    case Close => s.(closed := true)
    case Exit(w) => s.(workers := s.workers[w := s.workers[w].(exited := true)])
  }

  function Start(workers: nat): State {
    State(seq(workers, i => Worker([], None, false)), false, [], [])
  }

  function ToShard(w: int, n: int): Message -> bool
    requires n > 0
  {
    (m: Message) => Shard(m, n) == w
  }

  function HasKey(key: seq<bv8>): Message -> bool {
    (m: Message) => m.key == key
  }

  /** What was sent to a worker is what it handled, what it holds and what it has queued, in order. */
  ghost predicate InOrder(s: State, w: nat)
    requires w < |s.workers|
  {
    Filter(s.dispatched, ToShard(w, |s.workers|)) == Filter(s.handled, ToShard(w, |s.workers|)) + s.workers[w].Pending()
  }

  /** A worker holds only messages of its shard, and exits only when it has none. */
  ghost predicate AtHome(s: State, w: nat)
    requires w < |s.workers|
  {
    && (s.workers[w].exited ==> s.closed && s.workers[w].Pending() == [])
    && forall m :: m in s.workers[w].Pending() ==> Shard(m, |s.workers|) == w
  }

  ghost predicate Inv(s: State) {
    && |s.workers| > 0
    && forall w: nat :: w < |s.workers| ==> InOrder(s, w) && AtHome(s, w)
  }

  lemma StartInv(workers: nat)
    requires workers > 0
    ensures Inv(Start(workers))
  {
  }

  lemma NothingHere(msgs: seq<Message>, w: nat, n: nat)
    requires n > 0 && |msgs| <= 1 && forall m :: m in msgs ==> Shard(m, n) != w
    ensures Filter(msgs, ToShard(w, n)) == []
  {
    hide ShardIndex;
  }

  /** A worker is untouched by what happens to messages of other shards. */
  lemma OtherWorker(s: State, s': State, w: nat, sent: seq<Message>, done: seq<Message>)
    requires w < |s.workers| == |s'.workers| && s'.workers[w] == s.workers[w] && (s.closed ==> s'.closed)
    requires |sent| <= 1 && |done| <= 1
    requires forall m :: m in sent || m in done ==> Shard(m, |s.workers|) != w
    requires s'.dispatched == s.dispatched + sent && s'.handled == s.handled + done
    requires InOrder(s, w) && AtHome(s, w)
    ensures InOrder(s', w) && AtHome(s', w)
  {
    hide ShardIndex, Filter, Worker.Pending;
    var p := ToShard(w, |s.workers|);
    FilterAppend(s.dispatched, sent, p);
    FilterAppend(s.handled, done, p);
    NothingHere(sent, w, |s.workers|);
    NothingHere(done, w, |s.workers|);
  }

  lemma DispatchHere(s: State, s': State, w: nat, m: Message)
    requires w < |s.workers| == |s'.workers| && InOrder(s, w) && AtHome(s, w) && !s.closed
    requires Shard(m, |s.workers|) == w
    requires s'.workers[w].Pending() == s.workers[w].Pending() + [m] && s'.workers[w].exited == s.workers[w].exited
    requires s'.dispatched == s.dispatched + [m] && s'.handled == s.handled
    ensures InOrder(s', w) && AtHome(s', w)
  {
    hide ShardIndex, Filter, Worker.Pending;
    FilterSnoc(s.dispatched, m, ToShard(w, |s.workers|));
  }

  lemma DispatchInv(s: State, capacity: nat, m: Message)
    requires Inv(s) && Enabled(s, capacity, Dispatch(m))
    ensures Inv(Next(s, capacity, Dispatch(m)))
  {
    var s' := Next(s, capacity, Dispatch(m));
    var n := |s.workers|;
    ShardInRange(m.key, n);
    var i := Shard(m, n);
    hide ShardIndex, Filter;
    forall w: nat | w < n
      ensures InOrder(s', w) && AtHome(s', w)
    {
      assert InOrder(s, w) && AtHome(s, w);
      if w != i {
        OtherWorker(s, s', w, [m], []);
      } else {
        assert s'.workers[w].Pending() == s.workers[w].Pending() + [m];
        DispatchHere(s, s', w, m);
      }
    }
  }

  lemma FinishHere(s: State, s': State, w: nat, m: Message, rest: seq<Message>)
    requires w < |s.workers| == |s'.workers| && InOrder(s, w) && AtHome(s, w) && !s.workers[w].exited
    requires s.workers[w].Pending() == [m] + rest && s'.workers[w].Pending() == rest && !s'.workers[w].exited
    requires s'.dispatched == s.dispatched && s'.handled == s.handled + [m]
    ensures InOrder(s', w) && AtHome(s', w)
  {
    hide ShardIndex, Filter, Worker.Pending;
    var p := ToShard(w, |s.workers|);
    assert m in s.workers[w].Pending();
    FilterSnoc(s.handled, m, p);
    assert Filter(s.handled, p) + ([m] + rest) == Filter(s.handled, p) + [m] + rest;
  }

  lemma FinishInv(s: State, capacity: nat, i: nat, ending: Ending)
    requires Inv(s) && Enabled(s, capacity, Finish(i, ending))
    ensures Inv(Next(s, capacity, Finish(i, ending)))
  {
    var s' := Next(s, capacity, Finish(i, ending));
    var n, m := |s.workers|, s.workers[i].inHand.value;
    assert InOrder(s, i) && AtHome(s, i);
    var rest := s'.workers[i].Pending();
    assert s.workers[i].Pending() == [m] + rest;
    assert m in s.workers[i].Pending();
    hide ShardIndex, Filter;
    forall w: nat | w < n
      ensures InOrder(s', w) && AtHome(s', w)
    {
      assert InOrder(s, w) && AtHome(s, w);
      if w != i {
        OtherWorker(s, s', w, [], [m]);
      } else {
        FinishHere(s, s', i, m, rest);
      }
    }
  }

  lemma StepInv(s: State, capacity: nat, e: Event)
    requires Inv(s) && Enabled(s, capacity, e)
    ensures Inv(Next(s, capacity, e))
  {
    hide ShardIndex, Filter;
    match e
    case Dispatch(m) => DispatchInv(s, capacity, m);
    case Finish(w, ending) => FinishInv(s, capacity, w, ending);
    case _ =>
      var s' := Next(s, capacity, e);
      forall v: nat | v < |s.workers|
        ensures InOrder(s', v) && AtHome(s', v)
      {
        assert InOrder(s, v) && AtHome(s, v);
        assert s'.workers[v].Pending() == s.workers[v].Pending();
      }
  }

  // ---------- what every run keeps ----------

  ghost predicate IsRun(states: seq<State>, events: seq<Event>, workers: nat, capacity: nat) {
    && workers > 0
    && |states| == |events| + 1
    && states[0] == Start(workers)
    && forall i: nat :: i < |events| ==> Enabled(states[i], capacity, events[i]) && states[i + 1] == Next(states[i], capacity, events[i])
  }

  lemma {:induction false} RunInv(states: seq<State>, events: seq<Event>, workers: nat, capacity: nat, n: nat)
    requires IsRun(states, events, workers, capacity) && n <= |events|
    ensures Inv(states[n]) && |states[n].workers| == workers
  {
    if n == 0 {
      StartInv(workers);
    } else {
      RunInv(states, events, workers, capacity, n - 1);
      StepInv(states[n - 1], capacity, events[n - 1]);
    }
  }

  /** For every key: what was dispatched under it is what was handled under it, then what its one
      worker holds, then what that worker has queued, in that order. */
  lemma PerKeyOrder(s: State, key: seq<bv8>)
    requires Inv(s)
    ensures 0 <= ShardIndex(key, |s.workers|, true) < |s.workers|
    ensures Filter(s.dispatched, HasKey(key))
            == Filter(s.handled, HasKey(key)) + Filter(s.workers[ShardIndex(key, |s.workers|, true)].Pending(), HasKey(key))
  {
    var n := |s.workers|;
    ShardInRange(key, n);
    var w := ShardIndex(key, n, true);
    var p, q := HasKey(key), ToShard(w, n);
    assert InOrder(s, w);
    FilterTwice(s.dispatched, p, q);
    FilterTwice(s.handled, p, q);
    FilterAppend(Filter(s.handled, q), s.workers[w].Pending(), p);
  }

  /** Over every run: the handled messages of a key are a prefix of its dispatched ones, and once
      all workers have exited they are all of them. */
  lemma KeyOrder(states: seq<State>, events: seq<Event>, workers: nat, capacity: nat, n: nat, key: seq<bv8>)
    requires IsRun(states, events, workers, capacity) && n <= |events|
    ensures Filter(states[n].handled, HasKey(key)) <= Filter(states[n].dispatched, HasKey(key))
    ensures (forall w: nat :: w < |states[n].workers| ==> states[n].workers[w].exited) ==>
              Filter(states[n].handled, HasKey(key)) == Filter(states[n].dispatched, HasKey(key))
  {
    RunInv(states, events, workers, capacity, n);
    PerKeyOrder(states[n], key);
    var w := ShardIndex(key, workers, true);
    assert AtHome(states[n], w);
  }

  // ---------- conservation ----------

  function AllPending(workers: seq<Worker>): multiset<Message> {
    if workers == [] then multiset{}
    else AllPending(workers[..|workers| - 1]) + workers[|workers| - 1].Bag()
  }

  lemma Exchange<T>(x: multiset<T>, a: multiset<T>, y: multiset<T>, b: multiset<T>, rest: multiset<T>)
    requires x + a == y + b
    ensures x + rest + a == y + rest + b
  {
    assert x + rest + a == x + a + rest;
    assert y + rest + b == y + b + rest;
  }

  lemma {:induction false} PendingUpdate(workers: seq<Worker>, i: nat, worker: Worker)
    requires i < |workers|
    ensures AllPending(workers[i := worker]) + workers[i].Bag() == AllPending(workers) + worker.Bag()
  {
    hide Worker.Bag;
    var n := |workers| - 1;
    var changed := workers[i := worker];
    if i == n {
      assert changed[..n] == workers[..n];
      assert AllPending(changed) == AllPending(workers[..n]) + worker.Bag();
      assert AllPending(workers) == AllPending(workers[..n]) + workers[n].Bag();
    } else {
      assert changed[..n] == workers[..n][i := worker];
      PendingUpdate(workers[..n], i, worker);
      Exchange(AllPending(changed[..n]), workers[i].Bag(), AllPending(workers[..n]), worker.Bag(), workers[n].Bag());
    }
  }

  ghost predicate Conserved(s: State) {
    multiset(s.dispatched) == multiset(s.handled) + AllPending(s.workers)
  }

  /** Moving messages within a worker, into it or out of it keeps the balance. */
  lemma BalanceKept(s: State, s': State, i: nat, sent: seq<Message>, done: seq<Message>)
    requires Conserved(s) && i < |s.workers|
    requires |s'.workers| == |s.workers| && s'.workers == s.workers[i := s'.workers[i]]
    requires s'.dispatched == s.dispatched + sent && s'.handled == s.handled + done
    requires s.workers[i].Pending() + sent == done + s'.workers[i].Pending()
    ensures Conserved(s')
  {
    hide AllPending, Worker.Pending;
    PendingUpdate(s.workers, i, s'.workers[i]);
    var b, b' := s.workers[i].Bag(), s'.workers[i].Bag();
    assert b + multiset(sent) == multiset(done) + b' by {
      assert multiset(s.workers[i].Pending() + sent) == multiset(done + s'.workers[i].Pending());
    }
    hide Worker.Bag;
    var x, x' := AllPending(s.workers), AllPending(s'.workers);
    Balance(x, x', b, b', multiset(sent), multiset(done));
    var h := multiset(s.handled);
    assert multiset(s.dispatched + sent) == h + x + multiset(sent) == h + (x + multiset(sent));
    assert multiset(s.handled + done) + x' == h + multiset(done) + x' == h + (multiset(done) + x');
  }

  lemma Balance<T>(x: multiset<T>, x': multiset<T>, b: multiset<T>, b': multiset<T>, sent: multiset<T>, done: multiset<T>)
    requires x' + b == x + b' && b + sent == done + b'
    ensures x + sent == done + x'
  {
    forall t
      ensures (x + sent)[t] == (done + x')[t]
    {
      assert (x' + b)[t] == x'[t] + b[t] && (x + b')[t] == x[t] + b'[t];
      assert (b + sent)[t] == b[t] + sent[t] && (done + b')[t] == done[t] + b'[t];
    }
  }

  lemma StepConserved(s: State, capacity: nat, e: Event)
    requires Conserved(s) && Enabled(s, capacity, e)
    ensures Conserved(Next(s, capacity, e))
  {
    hide AllPending, ShardIndex, Conserved;
    var s' := Next(s, capacity, e);
    match e
    case Dispatch(m) =>
      ShardInRange(m.key, |s.workers|);
      BalanceKept(s, s', Shard(m, |s.workers|), [m], []);
    case Finish(w, _) =>
      BalanceKept(s, s', w, [], [s.workers[w].inHand.value]);
    case Close =>
      BalanceKept(s, s', 0, [], []);
    case _ =>
      BalanceKept(s, s', e.w, [], []);
  }

  lemma {:induction false} NothingPending(workers: seq<Worker>)
    requires forall w: nat :: w < |workers| ==> workers[w].Pending() == []
    ensures AllPending(workers) == multiset{}
  {
    if workers != [] {
      NothingPending(workers[..|workers| - 1]);
    }
  }

  lemma {:induction false} RunConserved(states: seq<State>, events: seq<Event>, workers: nat, capacity: nat, n: nat)
    requires IsRun(states, events, workers, capacity) && n <= |events|
    ensures Conserved(states[n])
  {
    if n == 0 {
      NothingPending(states[0].workers);
    } else {
      RunConserved(states, events, workers, capacity, n - 1);
      StepConserved(states[n - 1], capacity, events[n - 1]);
    }
  }

  /** Over every run: the dispatched messages are, each as often, those handled, in hand or queued;
      when all workers have exited, every one was handled exactly once, errors and panics included. */
  lemma Conservation(states: seq<State>, events: seq<Event>, workers: nat, capacity: nat, n: nat)
    requires IsRun(states, events, workers, capacity) && n <= |events|
    ensures multiset(states[n].dispatched) == multiset(states[n].handled) + AllPending(states[n].workers)
    ensures (forall w: nat :: w < |states[n].workers| ==> states[n].workers[w].exited) ==>
              multiset(states[n].dispatched) == multiset(states[n].handled)
  {
    RunInv(states, events, workers, capacity, n);
    RunConserved(states, events, workers, capacity, n);
    if forall w: nat :: w < |states[n].workers| ==> states[n].workers[w].exited {
      forall w: nat | w < |states[n].workers|
        ensures states[n].workers[w].Pending() == []
      {
        assert AtHome(states[n], w);
      }
      NothingPending(states[n].workers);
    }
  }

  // ---------- the dispatcher object ----------

  class Pool {
    const capacity: nat
    var workers: seq<Worker>
    var closed: bool
    ghost var dispatched: seq<Message>
    ghost var handled: seq<Message>

    ghost function View(): State
      reads this
    {
      State(workers, closed, dispatched, handled)
    }

    constructor (n: nat, capacity: nat)
      requires n > 0
      ensures View() == Start(n) && this.capacity == capacity && Inv(View())
    {
      this.capacity := capacity;
      workers := seq(n, i => Worker([], None, false));
      closed := false;
      dispatched, handled := [], [];
      new;
      StartInv(n);
    }

    /** Sends to the worker of the key; the channel has room, otherwise the caller waits. */
    method DispatchMessage(m: Message)
      requires Inv(View()) && Enabled(View(), capacity, Dispatch(m))
      modifies this
      ensures View() == Next(old(View()), capacity, Dispatch(m)) && Inv(View())
    {
      DispatchInv(View(), capacity, m);
      var i := ShardIndex(m.key, |workers|, true);
      ShardInRange(m.key, |workers|);
      workers := workers[i := workers[i].(queue := workers[i].queue + [m])];
      dispatched := dispatched + [m];
    }

    /** A worker receives from its channel. */
    method TakeNext(w: nat)
      requires Inv(View()) && Enabled(View(), capacity, Take(w))
      modifies this
      ensures View() == Next(old(View()), capacity, Take(w)) && Inv(View())
    {
      StepInv(View(), capacity, Take(w));
      workers := workers[w := workers[w].(queue := workers[w].queue[1..], inHand := Some(workers[w].queue[0]))];
    }

    /** Its handler ends, one way or another; the worker survives. */
    method FinishCurrent(w: nat, ending: Ending) returns (m: Message)
      requires Inv(View()) && Enabled(View(), capacity, Finish(w, ending))
      modifies this
      ensures View() == Next(old(View()), capacity, Finish(w, ending)) && Inv(View())
      ensures handled == old(handled) + [m]
    {
      FinishInv(View(), capacity, w, ending);
      m := workers[w].inHand.value;
      workers := workers[w := workers[w].(inHand := None)];
      handled := handled + [m];
    }

    /** One step of a worker that has something to do. */
    method Work(w: nat, ending: Ending)
      requires Inv(View()) && w < |workers| && workers[w].Pending() != []
      modifies this
      ensures Inv(View()) && |workers| == old(|workers|) && closed == old(closed) && dispatched == old(dispatched)
      ensures Remaining(workers) < Remaining(old(workers))
    {
      ghost var before := workers;
      if workers[w].inHand.Some? {
        var m := FinishCurrent(w, ending);
      } else {
        TakeNext(w);
      }
      RemainingUpdate(before, w, workers[w]);
      assert workers == before[w := workers[w]];
    }

    /** Closes the channels and waits while the workers, in any order, finish what they hold and empty
        them. */
    method Shutdown(endings: nat -> Ending)
      requires Inv(View()) && !closed
      modifies this
      ensures Inv(View()) && closed && |workers| == old(|workers|)
      ensures dispatched == old(dispatched)
      ensures forall w: nat :: w < |workers| ==> workers[w].Pending() == []
      ensures forall key :: Filter(handled, HasKey(key)) == Filter(dispatched, HasKey(key))
    {
      StepInv(View(), capacity, Close);
      closed := true;
      var steps := 0;
      while exists w: nat :: w < |workers| && workers[w].Pending() != []
        invariant Inv(View()) && closed && |workers| == old(|workers|) && dispatched == old(dispatched)
        decreases Remaining(workers)
      {
        var w: nat :| w < |workers| && workers[w].Pending() != [];
        Work(w, endings(steps));
        steps := steps + 1;
      }
      forall key
        ensures Filter(handled, HasKey(key)) == Filter(dispatched, HasKey(key))
      {
        PerKeyOrder(View(), key);
      }
    }
  }

  /** Steps left: one to take and one to finish each message. */
  function Steps(worker: Worker): nat {
    2 * |worker.queue| + if worker.inHand.Some? then 1 else 0
  }

  function Remaining(workers: seq<Worker>): nat {
    if workers == [] then 0 else Remaining(workers[..|workers| - 1]) + Steps(workers[|workers| - 1])
  }

  lemma {:induction false} RemainingUpdate(workers: seq<Worker>, i: nat, worker: Worker)
    requires i < |workers|
    ensures Remaining(workers[i := worker]) + Steps(workers[i]) == Remaining(workers) + Steps(worker)
  {
    hide Steps;
    var n := |workers| - 1;
    if i == n {
      assert workers[i := worker][..n] == workers[..n];
    } else {
      assert workers[i := worker][..n] == workers[..n][i := worker];
      RemainingUpdate(workers[..n], i, worker);
    }
  }
}
