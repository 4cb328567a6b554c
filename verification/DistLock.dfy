/** The Redis-backed distributed lock: SET NX PX to acquire, and two scripts that release and
    extend only for the recorded owner.  Redis is a store of keys with an owner and an expiry;
    every command is atomic and every interleaving of clients is a sequence of commands. */
module DistLock {
  import opened Wrappers

  /** The random UUID that proves ownership. */
  type Token = nat

  /** A duration of at least one millisecond. */
  type Millis = t: int | t >= 1 witness 1

  const DEFAULT_TTL: Millis := 30_000

  datatype Held = Held(owner: Token, expireAt: int)

  datatype Store = Store(locks: map<string, Held>, now: int) {
    /** The key exists: it was set and has not expired.  Redis drops a key only once its expiry lies
        in the past, so it still exists in the very millisecond. */
    predicate Live(key: string) {
      key in locks && now <= locks[key].expireAt
    }

    /** GET key == token. */
    predicate Owns(key: string, token: Token) {
      Live(key) && locks[key].owner == token
    }
  }

  datatype Command =
    | TryAcquire(key: string, token: Token, ttl: Millis)
    | Release(key: string, token: Token)
    | Extend(key: string, token: Token, ms: int)
    | Wait(time: nat)

  /** One atomic command: the new store, and whether the command reports success. */
  function Exec(s: Store, c: Command): (Store, bool) {
    match c
    case TryAcquire(key, token, ttl) =>
      if s.Live(key) then (s, false)
      else (s.(locks := s.locks[key := Held(token, s.now + ttl)]), true)
    case Release(key, token) =>
      if s.Owns(key, token) then (s.(locks := s.locks - {key}), true) else (s, false)
    case Extend(key, token, ms) =>
      if !s.Owns(key, token) then (s, false)
      else if ms <= 0 then (s.(locks := s.locks - {key}), true)
      else (s.(locks := s.locks[key := Held(token, s.now + ms)]), true)
    case Wait(time) => (s.(now := s.now + time), true)
  }

  function ExecAll(s: Store, cs: seq<Command>): Store {
    if cs == [] then s else Exec(ExecAll(s, cs[..|cs| - 1]), cs[|cs| - 1]).0
  }

  lemma {:induction false} ExecAllAppend(s: Store, a: seq<Command>, b: seq<Command>)
    ensures ExecAll(s, a + b) == ExecAll(ExecAll(s, a), b)
  {
    if b == [] {
      assert a + b == a;
    } else {
      assert (a + b)[..|a + b| - 1] == a + b[..|b| - 1];
      ExecAllAppend(s, a, b[..|b| - 1]);
    }
  }

  // ---------- the Redis server and the client code ----------

  class Redis {
    var locks: map<string, Held>
    var now: int

    function View(): Store
      reads this
    {
      Store(locks, now)
    }

    constructor (time: int)
      ensures View() == Store(map[], time)
    {
      locks, now := map[], time;
    }

    /** SET key value NX PX ttl. */
    method SetNX(key: string, value: Token, ttl: Millis) returns (ok: bool)
      modifies this`locks
      ensures (View(), ok) == Exec(old(View()), TryAcquire(key, value, ttl))
    {
      ok := !View().Live(key);
      if ok {
        locks := locks[key := Held(value, now + ttl)];
      }
    }

    method ReleaseScript(key: string, value: Token) returns (ok: bool)
      modifies this`locks
      ensures (View(), ok) == Exec(old(View()), Release(key, value))
    {
      ok := View().Owns(key, value);
      if ok {
        locks := locks - {key};
      }
    }

    /** PEXPIRE with a duration that is not positive deletes the key. */
    method ExtendScript(key: string, value: Token, ms: int) returns (ok: bool)
      modifies this`locks
      ensures (View(), ok) == Exec(old(View()), Extend(key, value, ms))
    {
      ok := View().Owns(key, value);
      if ok {
        if ms <= 0 {
          locks := locks - {key};
        } else {
          locks := locks[key := Held(value, now + ms)];
        }
      }
    }

    /** Time passes and other clients act. */
    method Interleave(others: seq<Command>)
      modifies this
      ensures View() == ExecAll(old(View()), others)
    {
      var i := 0;
      assert others[..0] == [];
      while i < |others|
        invariant 0 <= i <= |others|
        invariant View() == ExecAll(old(View()), others[..i])
      {
        var s := Exec(View(), others[i]).0;
        locks, now := s.locks, s.now;
        i := i + 1;
        assert others[..i][..i - 1] == others[..i - 1];
      }
      assert others[..i] == others;
    }
  }

  datatype Config = Config(ttl: Option<Millis>, retryTimeout: nat) {
    function Ttl(): Millis {
      if ttl.Some? then ttl.value else DEFAULT_TTL
    }
  }

  datatype Lock = Lock(key: string, value: Token)

  datatype LockError = NotAcquired | RedisError | ContextDone

  /** What wakes the retry loop: a cancelled context, or a tick before which other clients
      acted; `net` says how the following Redis call fares. */
  datatype Wake = Cancelled | Tick(others: seq<Command>, net: Net)

  /** One attempt; an attempt whose answer is lost may have set the key. */
  method Attempt(redis: Redis, key: string, value: Token, ttl: Millis, net: Net) returns (acquired: Option<bool>)
    modifies redis`locks
    ensures var (store, ok) := Exec(old(redis.View()), TryAcquire(key, value, ttl));
            redis.View() == (if net.Effective() then store else old(redis.View()))
            && acquired == if net.Up? then Some(ok) else None
  {
    if net.Down? {
      return None;
    }
    var ok := redis.SetNX(key, value, ttl);
    acquired := if net.Up? then Some(ok) else None;
  }

  // ---------- acquiring with retries ----------

  /** What the other clients did up to wake n, which ends a run of ticks. */
  ghost function Others(wakes: seq<Wake>, n: nat): seq<Command>
    requires n <= |wakes|
  {
    if n == 0 then [] else Others(wakes, n - 1) + if wakes[n - 1].Tick? then wakes[n - 1].others else []
  }

  /** The store that tick i finds, when no attempt before it succeeded. */
  ghost function FoundBy(s: Store, wakes: seq<Wake>, i: nat): Store
    requires i < |wakes|
  {
    ExecAll(s, Others(wakes, i + 1))
  }

  /** Wake i is a tick up to the deadline whose attempt is answered and finds the key taken. */
  ghost predicate KeepsWaiting(s: Store, key: string, deadline: int, wakes: seq<Wake>, i: nat)
    requires i < |wakes|
  {
    wakes[i].Tick? && FoundBy(s, wakes, i).now <= deadline && wakes[i].net.Up? && FoundBy(s, wakes, i).Live(key)
  }

  /** The answer of wake i, the first that does not keep the loop waiting. */
  ghost predicate Answers(s: Store, lock: Lock, deadline: int, wakes: seq<Wake>, i: nat,
                          result: Option<Result<Lock, LockError>>, taken: seq<Command>, lost: bool)
    requires i < |wakes|
  {
    match wakes[i]
    case Cancelled => result == Some(Failure(ContextDone)) && taken == Others(wakes, i) && !lost
    case Tick(_, net) =>
      && taken == Others(wakes, i + 1)
      && (FoundBy(s, wakes, i).now > deadline ==> result == Some(Failure(NotAcquired)) && !lost)
      && (FoundBy(s, wakes, i).now <= deadline && !net.Up? ==> result == Some(Failure(RedisError)) && lost == net.ReplyLost?)
      && (FoundBy(s, wakes, i).now <= deadline && net.Up? && !FoundBy(s, wakes, i).Live(lock.key) ==>
            result == Some(Success(lock)) && !lost)
  }

  /** The first `woken` wakes keep the loop waiting; the next, if there is one, ends it with its answer,
      and without one the loop is still waiting. */
  ghost predicate Woken(s: Store, lock: Lock, deadline: int, wakes: seq<Wake>, woken: nat,
                        result: Option<Result<Lock, LockError>>, taken: seq<Command>, lost: bool) {
    && woken <= |wakes|
    && (forall j: nat :: j < woken ==> KeepsWaiting(s, lock.key, deadline, wakes, j))
    && (woken < |wakes| ==>
          && !KeepsWaiting(s, lock.key, deadline, wakes, woken)
          && Answers(s, lock, deadline, wakes, woken, result, taken, lost))
    && (woken == |wakes| ==> result == None && taken == Others(wakes, woken) && !lost)
  }

  /** So the first tick up to the deadline that finds the key free, after ticks that found it taken, gets
      it; a cancelled context or a failing call in its place ends the loop with its error. */
  lemma FirstFreeTick(s: Store, lock: Lock, deadline: int, wakes: seq<Wake>, woken: nat,
                      result: Option<Result<Lock, LockError>>, taken: seq<Command>, lost: bool, i: nat)
    requires Woken(s, lock, deadline, wakes, woken, result, taken, lost)
    requires i < |wakes| && forall j: nat :: j < i ==> KeepsWaiting(s, lock.key, deadline, wakes, j)
    ensures wakes[i].Cancelled? ==> result == Some(Failure(ContextDone)) && taken == Others(wakes, i)
    ensures wakes[i].Tick? && FoundBy(s, wakes, i).now <= deadline && !wakes[i].net.Up? ==>
              result == Some(Failure(RedisError)) && taken == Others(wakes, i + 1)
    ensures wakes[i].Tick? && FoundBy(s, wakes, i).now <= deadline && wakes[i].net.Up? && !FoundBy(s, wakes, i).Live(lock.key) ==>
              result == Some(Success(lock)) && taken == Others(wakes, i + 1)
    ensures wakes[i].Tick? && FoundBy(s, wakes, i).now > deadline ==>
              result == Some(Failure(NotAcquired)) && taken == Others(wakes, i + 1)
  {
    hide ExecAll;
    assert woken >= i;
    assert woken > i ==> KeepsWaiting(s, lock.key, deadline, wakes, i);
  }

  /** One tick: the others act, and unless the deadline has passed the key is tried again. */
  method OnTick(redis: Redis, lock: Lock, ttl: Millis, deadline: int, wake: Wake) returns (late: bool, acquired: Option<bool>)
    requires wake.Tick?
    modifies redis
    ensures var found := ExecAll(old(redis.View()), wake.others);
            var (store, ok) := Exec(found, TryAcquire(lock.key, lock.value, ttl));
            && late == (found.now > deadline)
            && redis.View() == (if !late && wake.net.Effective() then store else found)
            && (!late ==> acquired == if wake.net.Up? then Some(ok) else None)
  {
    redis.Interleave(wake.others);
    late, acquired := redis.now > deadline, None;
    if !late {
      acquired := Attempt(redis, lock.key, lock.value, ttl, wake.net);
    }
  }

  /** The retry loop. */
  method AwaitLock(redis: Redis, lock: Lock, ttl: Millis, deadline: int, wakes: seq<Wake>)
      returns (result: Option<Result<Lock, LockError>>, ghost taken: seq<Command>, ghost lost: bool, ghost woken: nat)
    modifies redis
    ensures Woken(old(redis.View()), lock, deadline, wakes, woken, result, taken, lost)
    ensures var others := ExecAll(old(redis.View()), taken);
            redis.View() == if lost || result == Some(Success(lock)) then Exec(others, TryAcquire(lock.key, lock.value, ttl)).0 else others
    ensures result.Some? && result.value.Success? ==>
              result.value.value == lock && !ExecAll(old(redis.View()), taken).Live(lock.key)
    ensures lost ==> result == Some(Failure(RedisError))
    ensures result == Some(Failure(NotAcquired)) ==> redis.now > deadline
  {
    hide KeepsWaiting, Answers;
    ghost var start := old(redis.View());
    taken, lost := [], false;
    var i := 0;
    while i < |wakes|
      invariant 0 <= i <= |wakes|
      invariant taken == Others(wakes, i) && redis.View() == ExecAll(start, taken) && !lost
      invariant forall j: nat :: j < i ==> KeepsWaiting(start, lock.key, deadline, wakes, j)
    {
      if wakes[i].Cancelled? {
        CancelledAnswer(start, lock, deadline, wakes, i);
        return Some(Failure(ContextDone)), taken, lost, i;
      }
      ExecAllAppend(start, taken, wakes[i].others);
      var late, acquired := OnTick(redis, lock, ttl, deadline, wakes[i]);
      taken := taken + wakes[i].others;
      TickAnswer(start, lock, deadline, wakes, i);
      if late {
        return Some(Failure(NotAcquired)), taken, lost, i;
      }
      if acquired == None {
        return Some(Failure(RedisError)), taken, wakes[i].net.ReplyLost?, i;
      }
      if acquired.value {
        return Some(Success(lock)), taken, lost, i;
      }
      i := i + 1;
    }
    return None, taken, lost, i;
  }

  lemma CancelledAnswer(s: Store, lock: Lock, deadline: int, wakes: seq<Wake>, i: nat)
    requires i < |wakes| && wakes[i].Cancelled?
    ensures !KeepsWaiting(s, lock.key, deadline, wakes, i)
    ensures Answers(s, lock, deadline, wakes, i, Some(Failure(ContextDone)), Others(wakes, i), false)
  {
  }

  lemma TickAnswer(s: Store, lock: Lock, deadline: int, wakes: seq<Wake>, i: nat)
    requires i < |wakes| && wakes[i].Tick?
    ensures Others(wakes, i + 1) == Others(wakes, i) + wakes[i].others
    ensures var (found, net, taken) := (FoundBy(s, wakes, i), wakes[i].net, Others(wakes, i + 1));
            && found == ExecAll(s, taken)
            && (KeepsWaiting(s, lock.key, deadline, wakes, i) <==> found.now <= deadline && net.Up? && found.Live(lock.key))
            && (found.now > deadline ==> Answers(s, lock, deadline, wakes, i, Some(Failure(NotAcquired)), taken, false))
            && (found.now <= deadline && !net.Up? ==>
                  Answers(s, lock, deadline, wakes, i, Some(Failure(RedisError)), taken, net.ReplyLost?))
            && (found.now <= deadline && net.Up? && !found.Live(lock.key) ==>
                  Answers(s, lock, deadline, wakes, i, Some(Success(lock)), taken, false))
  {
  }

  /** Acquire: one attempt, then one per tick until the deadline.  `taken` collects what the
      other clients did meanwhile; `lost` says that an attempt took effect, if it could, without an
      answer; `woken` counts the wakes after which the loop went on waiting. */
  method Acquire(redis: Redis, key: string, value: Token, cfg: Config, net: Net, wakes: seq<Wake>)
      returns (result: Option<Result<Lock, LockError>>, ghost taken: seq<Command>, ghost lost: bool, ghost woken: nat)
    modifies redis
    ensures result.Some? && result.value.Success? ==>
              && result.value.value == Lock(key, value)
              && (redis.View(), true) == Exec(ExecAll(old(redis.View()), taken), TryAcquire(key, value, cfg.Ttl()))
              && redis.View().Owns(key, value)
              && redis.locks[key].expireAt == redis.now + match cfg.ttl case Some(ttl) => ttl case None => 30_000
    ensures !(result.Some? && result.value.Success?) ==>
              var others := ExecAll(old(redis.View()), taken);
              redis.View() == if lost then Exec(others, TryAcquire(key, value, cfg.Ttl())).0 else others
    ensures lost ==> result == Some(Failure(RedisError))
    ensures !net.Up? ==> result == Some(Failure(RedisError)) && taken == [] && lost == net.ReplyLost?
    ensures net.Up? && !old(redis.View()).Live(key) ==> result == Some(Success(Lock(key, value))) && taken == []
    ensures net.Up? && old(redis.View()).Live(key) && cfg.retryTimeout == 0 ==>
              result == Some(Failure(NotAcquired)) && taken == [] && !lost
    ensures net.Up? && old(redis.View()).Live(key) && cfg.retryTimeout > 0 ==>
              Woken(old(redis.View()), Lock(key, value), old(redis.now) + cfg.retryTimeout, wakes, woken, result, taken, lost)
    ensures result == Some(Failure(NotAcquired)) && cfg.retryTimeout > 0 ==> redis.now > old(redis.now) + cfg.retryTimeout
  {
    hide Woken;
    taken, lost, woken := [], false, 0;
    var acquired := Attempt(redis, key, value, cfg.Ttl(), net);
    if acquired == None {
      return Some(Failure(RedisError)), taken, net.ReplyLost?, woken;
    }
    if acquired.value {
      return Some(Success(Lock(key, value))), taken, lost, woken;
    }
    if cfg.retryTimeout == 0 {
      return Some(Failure(NotAcquired)), taken, lost, woken;
    }
    var deadline := redis.now + cfg.retryTimeout;
    result, taken, lost, woken := AwaitLock(redis, Lock(key, value), cfg.Ttl(), deadline, wakes);
  }

  /** Release reports nothing when the lock had lapsed or passed to another owner. */
  method ReleaseLock(redis: Redis, lock: Lock, net: Net) returns (err: Option<LockError>)
    modifies redis`locks
    ensures redis.View() == if net.Effective() then Exec(old(redis.View()), Release(lock.key, lock.value)).0 else old(redis.View())
    ensures net.Effective() ==> !redis.View().Owns(lock.key, lock.value)
    ensures err == if net.Up? then None else Some(RedisError)
  {
    if net.Down? {
      return Some(RedisError);
    }
    var ok := redis.ReleaseScript(lock.key, lock.value);
    err := if net.Up? then None else Some(RedisError);
  }

  method ExtendLock(redis: Redis, lock: Lock, ms: int, net: Net) returns (err: Option<LockError>)
    modifies redis`locks
    ensures redis.View() == if net.Effective() then Exec(old(redis.View()), Extend(lock.key, lock.value, ms)).0 else old(redis.View())
    ensures err == if !net.Up? then Some(RedisError)
                   else if old(redis.View()).Owns(lock.key, lock.value) then None else Some(NotAcquired)
  {
    if net.Down? {
      return Some(RedisError);
    }
    var ok := redis.ExtendScript(lock.key, lock.value, ms);
    err := if net.ReplyLost? then Some(RedisError) else if ok then None else Some(NotAcquired);
  }

  // ---------- leases over whole runs ----------

  /** A run: the store between the commands, and the commands of all clients in the order
      Redis executed them. */
  datatype Trace = Trace(stores: seq<Store>, cmds: seq<Command>) {
    predicate IsRun() {
      && |stores| == |cmds| + 1
      && stores[0].locks == map[]
      && forall i: nat :: i < |cmds| ==> stores[i + 1] == Exec(stores[i], cmds[i]).0
    }

    /** Command i reported success. */
    predicate Succeeded(i: nat)
      requires i < |stores| && i < |cmds|
    {
      Exec(stores[i], cmds[i]).1
    }
  }

  /** The last millisecond of a token's lease, computed only from the token's own successful commands:
      the last acquire or extend sets it; a release, or an extend by less than one, cancels it. */
  function LeaseEnd(t: Trace, n: nat, key: string, token: Token): Option<int>
    requires t.IsRun() && n <= |t.cmds|
  {
    if n == 0 then None
    else
      var i := n - 1;
      match t.cmds[i]
      case TryAcquire(k, o, ttl) =>
        if k == key && o == token && t.Succeeded(i) then Some(t.stores[i].now + ttl) else LeaseEnd(t, i, key, token)
      case Extend(k, o, ms) =>
        if k == key && o == token && t.Succeeded(i) then (if ms >= 1 then Some(t.stores[i].now + ms) else None)
        else LeaseEnd(t, i, key, token)
      case Release(k, o) =>
        if k == key && o == token && t.Succeeded(i) then None else LeaseEnd(t, i, key, token)
      case Wait(_) => LeaseEnd(t, i, key, token)
  }

  predicate HasLease(t: Trace, n: nat, key: string, token: Token)
    requires t.IsRun() && n <= |t.cmds|
  {
    LeaseEnd(t, n, key, token).Some? && t.stores[n].now <= LeaseEnd(t, n, key, token).value
  }

  /** For every run and whatever the other clients do, the store names a token as owner exactly
      while the lease computed from that token's own commands lasts, and until the same instant. */
  lemma {:induction false} LeaseExact(t: Trace, n: nat, key: string, token: Token)
    requires t.IsRun() && n <= |t.cmds|
    ensures t.stores[n].Owns(key, token) <==> HasLease(t, n, key, token)
    ensures t.stores[n].Owns(key, token) ==> t.stores[n].locks[key].expireAt == LeaseEnd(t, n, key, token).value
  {
    if n > 0 {
      LeaseExact(t, n - 1, key, token);
    }
  }

  /** At most one owner value holds a lease on a key. */
  lemma MutualExclusion(t: Trace, n: nat, key: string, a: Token, b: Token)
    requires t.IsRun() && n <= |t.cmds|
    requires HasLease(t, n, key, a) && HasLease(t, n, key, b)
    ensures a == b
  {
    LeaseExact(t, n, key, a);
    LeaseExact(t, n, key, b);
  }

  /** An acquire succeeds exactly when nobody's lease is running: never before the owner's last
      granted lease ends unless that owner released it, and always after. */
  lemma AcquireExact(t: Trace, i: nat)
    requires t.IsRun() && i < |t.cmds| && t.cmds[i].TryAcquire?
    ensures t.Succeeded(i) <==> forall token :: !HasLease(t, i, t.cmds[i].key, token)
  {
    forall token
      ensures t.stores[i].Owns(t.cmds[i].key, token) <==> HasLease(t, i, t.cmds[i].key, token)
    {
      LeaseExact(t, i, t.cmds[i].key, token);
    }
    if t.stores[i].Live(t.cmds[i].key) {
      assert t.stores[i].Owns(t.cmds[i].key, t.stores[i].locks[t.cmds[i].key].owner);
    }
  }

  /** A handle whose lease is over, by time, release or takeover, changes nothing with Release or
      Extend and is told so; a handle with a lease always gets its way. */
  lemma StaleHandle(t: Trace, i: nat)
    requires t.IsRun() && i < |t.cmds| && (t.cmds[i].Release? || t.cmds[i].Extend?)
    ensures t.Succeeded(i) <==> HasLease(t, i, t.cmds[i].key, t.cmds[i].token)
    ensures !HasLease(t, i, t.cmds[i].key, t.cmds[i].token) ==> t.stores[i + 1] == t.stores[i]
    ensures t.Succeeded(i) && t.cmds[i].Release? ==> !t.stores[i + 1].Live(t.cmds[i].key)
  {
    LeaseExact(t, i, t.cmds[i].key, t.cmds[i].token);
  }

  /** An extend that reports success leaves its token the lease if and only if it was by at least a
      millisecond. */
  lemma ExtendKeepsLease(t: Trace, i: nat)
    requires t.IsRun() && i < |t.cmds| && t.cmds[i].Extend? && t.Succeeded(i)
    ensures HasLease(t, i + 1, t.cmds[i].key, t.cmds[i].token) <==> t.cmds[i].ms >= 1
    ensures t.stores[i + 1].Owns(t.cmds[i].key, t.cmds[i].token) <==> t.cmds[i].ms >= 1
  {
    LeaseExact(t, i + 1, t.cmds[i].key, t.cmds[i].token);
  }

  /** From its acquire on, a token that neither releases nor extends keeps its lease for exactly
      the granted time. */
  lemma {:induction false} LeaseRuns(t: Trace, i: nat, n: nat)
    requires t.IsRun() && i < n <= |t.cmds| && t.cmds[i].TryAcquire? && t.Succeeded(i)
    requires forall j :: i < j < n ==> t.cmds[j].Wait? || t.cmds[j].key != t.cmds[i].key || t.cmds[j].token != t.cmds[i].token
    ensures LeaseEnd(t, n, t.cmds[i].key, t.cmds[i].token) == Some(t.stores[i].now + t.cmds[i].ttl)
  {
    if n > i + 1 {
      LeaseRuns(t, i, n - 1);
    }
  }
}
