/** Cron jobs run by many pods, at most one at a time: the scheduler takes the distributed lock
    for the job's timeout plus a margin, runs the job, and releases in a deferred step. */
module Scheduler {
  import opened Wrappers
  import L = DistLock

  /** Milliseconds. */
  const DEFAULT_TIMEOUT := 300_000
  const MARGIN := 30_000

  datatype Job = Job(name: string, timeout: nat) {
    function LockKey(): string { "scheduler:" + name }
    function Lease(): L.Millis { timeout + MARGIN }
  }

  lemma LockKeyInjective(a: Job, b: Job)
    ensures a.LockKey() == b.LockKey() <==> a.name == b.name
  {
    assert a.name == a.LockKey()[|"scheduler:"|..];
    assert b.name == b.LockKey()[|"scheduler:"|..];
  }

  /** How the job function ends. */
  datatype Ending = Returned | ReturnedError | Panicked

  datatype Outcome = Skipped | LockFailed | Ran(ending: Ending)

  class Pod {
    var jobs: seq<Job>

    constructor ()
      ensures jobs == []
    {
      jobs := [];
    }

    method Register(job: Job)
      modifies this
      ensures jobs == old(jobs) + [Job(job.name, if job.timeout == 0 then 300_000 else job.timeout)]
    {
      var j := job;
      if j.timeout == 0 {
        j := j.(timeout := DEFAULT_TIMEOUT);
      }
      jobs := jobs + [j];
    }

    /** One trigger of a job.  While the function runs the other clients do `meanwhile`; the
        release is deferred, so it follows a return, an error and a panic alike. */
    method Execute(redis: L.Redis, job: Job, token: L.Token, ending: Ending, meanwhile: seq<L.Command>,
                   acquire: Net, release: Net) returns (outcome: Outcome)
      modifies redis
      ensures outcome.Ran? <==> acquire.Up? && !old(redis.View()).Live(job.LockKey())
      ensures outcome.Skipped? <==> acquire.Up? && old(redis.View()).Live(job.LockKey())
      ensures !outcome.Ran? ==>
                redis.View() == if acquire.ReplyLost?
                                then L.Exec(old(redis.View()), L.TryAcquire(job.LockKey(), token, job.timeout + 30_000)).0
                                else old(redis.View())
      ensures outcome.Ran? ==> outcome.ending == ending
      ensures outcome.Ran? && release.Effective() ==> !redis.View().Owns(job.LockKey(), token)
      ensures outcome.Ran? ==>
                var granted := L.Exec(old(redis.View()), L.TryAcquire(job.LockKey(), token, job.timeout + 30_000)).0;
                var finished := L.ExecAll(granted, meanwhile);
                redis.View() == if release.Effective() then L.Exec(finished, L.Release(job.LockKey(), token)).0 else finished
    {
      var result, taken, lost, woken := L.Acquire(redis, job.LockKey(), token, L.Config(Some(job.Lease()), 0), acquire, []);
      assert L.ExecAll(old(redis.View()), []) == old(redis.View());
      if result == Some(Failure(L.NotAcquired)) {
        return Skipped;
      }
      if !result.Some? || result.value.Failure? {
        return LockFailed;
      }
      redis.Interleave(meanwhile);
      var err := L.ReleaseLock(redis, result.value.value, release);
      outcome := Ran(ending);
    }
  }

  // ---------- any number of pods ----------

  /** One running job function: its job and the instant its lock was granted. */
  datatype Execution = Execution(job: Job, since: int) {
    function Deadline(): int { since + job.Lease() }
  }

  /** The shared store, the running functions of all pods by owner value, and the owner values
      generated so far. */
  datatype State = State(store: L.Store, running: map<L.Token, Execution>, used: set<L.Token>)

  datatype Event =
    | Start(job: Job, token: L.Token)                       // the lock is tried, the function runs if granted
    | StartReplyLost(job: Job, token: L.Token)              // the lock may be set, but the pod sees an error
    | Finish(token: L.Token, ending: Ending, up: bool)      // the function ends; the release may fail
    | Crash(token: L.Token)                                 // the pod dies while the function runs
    | Wait(time: nat)

  predicate Enabled(s: State, e: Event) {
    match e
    case Start(_, token) => token !in s.used
    case StartReplyLost(_, token) => token !in s.used
    case Finish(token, _, _) => token in s.running
    case Crash(token) => token in s.running
    case Wait(_) => true
  }

  function Next(s: State, e: Event): State
    requires Enabled(s, e)
  {
    match e
    case Start(job, token) =>
      var (store, granted) := L.Exec(s.store, L.TryAcquire(job.LockKey(), token, job.Lease()));
      State(store,
            if granted then s.running[token := Execution(job, s.store.now)] else s.running,
            s.used + {token})
    case StartReplyLost(job, token) =>
      s.(store := L.Exec(s.store, L.TryAcquire(job.LockKey(), token, job.Lease())).0, used := s.used + {token})
    case Finish(token, _, up) =>
      s.(store := if up then L.Exec(s.store, L.Release(s.running[token].job.LockKey(), token)).0 else s.store,
         running := s.running - {token})
    case Crash(token) => s.(running := s.running - {token})
    case Wait(time) => s.(store := L.Exec(s.store, L.Wait(time)).0)
  }

  predicate IsRun(states: seq<State>, events: seq<Event>) {
    && |states| == |events| + 1
    && states[0].store.locks == map[] && states[0].running == map[] && states[0].used == {}
    && forall i: nat :: i < |events| ==> Enabled(states[i], events[i]) && states[i + 1] == Next(states[i], events[i])
  }

  /** The lock entry of a running function stands untouched until its deadline. */
  ghost predicate Guarded(s: State, token: L.Token)
    requires token in s.running
  {
    var e := s.running[token];
    s.store.now <= e.Deadline() ==>
      e.job.LockKey() in s.store.locks && s.store.locks[e.job.LockKey()] == L.Held(token, e.Deadline())
  }

  ghost predicate Inv(s: State) {
    && s.running.Keys <= s.used
    && forall token :: token in s.running ==> Guarded(s, token)
  }

  lemma StepInv(s: State, e: Event)
    requires Inv(s) && Enabled(s, e)
    ensures Inv(Next(s, e))
  {
    var s' := Next(s, e);
    forall token | token in s'.running
      ensures Guarded(s', token)
    {
      if token in s.running {
        assert Guarded(s, token);
      }
    }
  }

  lemma {:induction false} RunInv(states: seq<State>, events: seq<Event>, n: nat)
    requires IsRun(states, events) && n <= |events|
    ensures Inv(states[n])
  {
    if n > 0 {
      RunInv(states, events, n - 1);
      StepInv(states[n - 1], events[n - 1]);
    }
  }

  /** Over every run of any number of pods: two functions of one job run at once only if one of
      them has already run for longer than its timeout and the full margin since its lock was granted. */
  lemma Exclusion(states: seq<State>, events: seq<Event>, n: nat, a: L.Token, b: L.Token)
    requires IsRun(states, events) && n <= |events|
    requires a in states[n].running && b in states[n].running && a != b
    requires states[n].running[a].job.name == states[n].running[b].job.name
    ensures exists token :: token in {a, b} &&
              states[n].store.now > states[n].running[token].since + states[n].running[token].job.timeout + 30_000
  {
    RunInv(states, events, n);
    LockKeyInjective(states[n].running[a].job, states[n].running[b].job);
    assert Guarded(states[n], a) && Guarded(states[n], b);
  }

  /** A function that keeps within its deadline keeps every other trigger of its job from running. */
  lemma TriggerSkipped(states: seq<State>, events: seq<Event>, i: nat, token: L.Token)
    requires IsRun(states, events) && i < |events|
    requires token in states[i].running
    requires states[i].store.now <= states[i].running[token].since + states[i].running[token].job.timeout + 30_000
    requires events[i].Start? && events[i].job.name == states[i].running[token].job.name
    ensures states[i + 1].running == states[i].running && states[i + 1].store == states[i].store
  {
    RunInv(states, events, i);
    LockKeyInjective(states[i].running[token].job, events[i].job);
    assert Guarded(states[i], token);
  }

  /** The margin is exact for every job: a function still running one millisecond after its deadline
      lets the next trigger run beside it. */
  lemma OverrunOverlaps(job: Job)
    ensures exists states: seq<State>, events: seq<Event> ::
              IsRun(states, events) && |events| == 3
              && states[3].running == map[0 := Execution(job, 0), 1 := Execution(job, job.timeout + 30_001)]
  {
    var events := [Start(job, 0), Wait(job.timeout + 30_001), Start(job, 1)];
    var s0 := State(L.Store(map[], 0), map[], {});
    var s1 := Next(s0, events[0]);
    var s2 := Next(s1, events[1]);
    var s3 := Next(s2, events[2]);
    var states := [s0, s1, s2, s3];
    assert s3.running == map[0 := Execution(job, 0), 1 := Execution(job, job.timeout + 30_001)];
    assert IsRun(states, events);
  }

  /** When the function has ended, however it ended, and the release got through, its owner value
      no longer owns the key, and if it ended in time the next trigger runs. */
  lemma FinishedReleases(states: seq<State>, events: seq<Event>, i: nat)
    requires IsRun(states, events) && i < |events| && events[i].Finish? && events[i].up
    ensures var (execution, token) := (states[i].running[events[i].token], events[i].token);
            && !states[i + 1].store.Owns(execution.job.LockKey(), token)
            && (states[i].store.now <= execution.since + execution.job.timeout + 30_000 ==>
                  !states[i + 1].store.Live(execution.job.LockKey()))
  {
    RunInv(states, events, i);
    assert Guarded(states[i], events[i].token);
  }

  /** Every running function holds the lock named after its job until 30 s after its timeout. */
  lemma LockHeld(states: seq<State>, events: seq<Event>, n: nat, token: L.Token)
    requires IsRun(states, events) && n <= |events| && token in states[n].running
    ensures var (s, e) := (states[n], states[n].running[token]);
            s.store.now <= e.since + e.job.timeout + 30_000 ==>
              s.store.Owns("scheduler:" + e.job.name, token)
  {
    RunInv(states, events, n);
    assert Guarded(states[n], token);
  }
}
