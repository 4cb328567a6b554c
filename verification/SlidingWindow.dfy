/** The Redis sliding-window limiter.

    One Redis key holds a sorted set of admitted requests, purged on every call and expired
    as a whole.  The script is modelled step by step; the lemmas compare its decisions with
    the full, never purged history of a run. */
module SlidingWindow {
  import opened Wrappers

  /** A member of the sorted set, the script's `now .. '-' .. random`. */
  datatype Member = Member(stamp: nat, salt: nat)

  /** The Redis key: members with their scores, and the instant the key may be dropped. */
  datatype Key = Key(zset: map<Member, nat>, deadline: Option<int>)

  const NoKey := Key(map[], None)

  datatype Reply = Admitted(remaining: int) | Denied(reset: int)

  /** One call of the script with its reply.  `dropped`: Redis had expired the key by then. */
  datatype Call = Call(now: nat, salt: nat, dropped: bool, reply: Reply) {
    function Id(): Member { Member(now, salt) }
  }

  // ---------- the script ----------

  /** ZREMRANGEBYSCORE key 0 cutoff. */
  function Purge(z: map<Member, nat>, cutoff: int): map<Member, nat> {
    map m | m in z && !(0 <= z[m] <= cutoff) :: z[m]
  }

  /** Redis removes a sorted set, and its deadline with it, when the last member goes. */
  function Settled(z: map<Member, nat>, deadline: Option<int>): Key {
    if z == map[] then NoKey else Key(z, deadline)
  }

  /** PEXPIRE: a duration that is not positive deletes the key at once. */
  function PExpire(k: Key, now: nat, window: int): Key {
    if window <= 0 then NoKey else k.(deadline := Some(now + window))
  }

  ghost predicate IsOldest(z: map<Member, nat>, score: nat) {
    && (exists m :: m in z && z[m] == score)
    && forall m :: m in z ==> score <= z[m]
  }

  lemma OldestExists(z: map<Member, nat>)
    requires z != map[]
    ensures exists score :: IsOldest(z, score)
    decreases |z|
  {
    var m :| m in z;
    var rest := z - {m};
    assert rest.Keys == z.Keys - {m};
    if rest == map[] {
      assert z.Keys == rest.Keys + {m};
      assert IsOldest(z, z[m]);
    } else {
      assert |rest.Keys| < |z.Keys|;
      OldestExists(rest);
      var score :| IsOldest(rest, score);
      var k :| k in rest && rest[k] == score;
      assert k in z && z[k] == score;
      forall j | j in z && j != m
        ensures score <= z[j]
      {
        assert j in rest;
      }
      assert IsOldest(z, if z[m] <= score then z[m] else score);
    }
  }

  /** The score ZRANGE key 0 0 WITHSCORES returns. */
  ghost function Oldest(z: map<Member, nat>): (score: nat)
    requires z != map[]
    ensures IsOldest(z, score)
  {
    OldestExists(z);
    var score :| IsOldest(z, score);
    score
  }

  /** The key after one call of the script. */
  function Script(k: Key, window: int, limit: int, now: nat, salt: nat): Key {
    var z := Purge(k.zset, now - window);
    if |z| < limit then PExpire(Key(z[Member(now, salt) := now], k.deadline), now, window)
    else Settled(z, k.deadline)
  }

  /** The reply of one call of the script. */
  ghost function ReplyOf(k: Key, window: int, limit: int, now: nat): Reply {
    var z := Purge(k.zset, now - window);
    if |z| < limit then Admitted(limit - |z| - 1)
    else Denied(if z == map[] then 0 else Oldest(z) + window)
  }

  /** The key as Redis stores it, changed in place by each command of the script. */
  class RedisKey {
    var zset: map<Member, nat>
    var deadline: Option<int>

    function View(): Key
      reads this
    {
      Key(zset, deadline)
    }

    constructor ()
      ensures View() == NoKey
    {
      zset, deadline := map[], None;
    }

    /** The lowest score, found by scanning the set. */
    method FirstScore() returns (score: nat)
      requires zset != map[]
      ensures score == Oldest(zset)
    {
      var todo := zset.Keys;
      var m :| m in todo;
      score, todo := zset[m], todo - {m};
      while todo != {}
        invariant todo <= zset.Keys
        invariant exists m :: m in zset && zset[m] == score
        invariant forall m :: m in zset && m !in todo ==> score <= zset[m]
        decreases todo
      {
        m :| m in todo;
        if zset[m] < score {
          score := zset[m];
        }
        todo := todo - {m};
      }
      assert IsOldest(zset, score);
    }

    method Run(window: int, limit: int, now: nat, salt: nat) returns (reply: Reply)
      modifies this
      ensures View() == Script(old(View()), window, limit, now, salt)
      ensures reply == ReplyOf(old(View()), window, limit, now)
      ensures reply.Admitted? && window > 0 ==> deadline == Some(now + window) && Member(now, salt) in zset && zset[Member(now, salt)] == now
      ensures reply.Admitted? && window <= 0 ==> View() == NoKey
      ensures reply.Denied? ==> deadline == if zset == map[] then None else old(deadline)
    {
      var cutoff := now - window;
      zset := Purge(zset, cutoff);
      var count := |zset|;
      if count < limit {
        zset := zset[Member(now, salt) := now];
        if window <= 0 {
          zset, deadline := map[], None;
        } else {
          deadline := Some(now + window);
        }
        reply := Admitted(limit - count - 1);
      } else {
        var reset := 0;
        if zset == map[] {
          deadline := None;
        } else {
          var oldest := FirstScore();
          reset := oldest + window;
        }
        reply := Denied(reset);
      }
    }

    /** The middleware around the script: it forwards the request when the script admits it
        and also when the call fails, although a call whose reply was lost has recorded it. */
    method Handle(window: int, limit: int, now: nat, salt: nat, net: Net) returns (forward: bool)
      modifies this
      ensures View() == if net.Effective() then Script(old(View()), window, limit, now, salt) else old(View())
      ensures forward <==> !net.Up? || ReplyOf(old(View()), window, limit, now).Admitted?
    {
      if net.Down? {
        return true;
      }
      var reply := Run(window, limit, now, salt);
      forward := net.ReplyLost? || reply.Admitted?;
    }
  }

  // ---------- runs ----------

  /** A run on one key: the key between the calls, and the calls. */
  datatype Trace = Trace(keys: seq<Key>, calls: seq<Call>) {

    predicate Admits(i: nat)
      requires i < |calls|
    {
      calls[i].reply.Admitted?
    }

    /** The key call i finds. */
    function Found(i: nat): Key
      requires i < |keys| && i < |calls|
    {
      if calls[i].dropped then NoKey else keys[i]
    }

    ghost predicate Step(window: int, limit: int, i: nat)
      requires i + 1 < |keys| && i < |calls|
    {
      && (calls[i].dropped ==> keys[i].deadline.Some? && keys[i].deadline.value <= calls[i].now)
      && keys[i + 1] == Script(Found(i), window, limit, calls[i].now, calls[i].salt)
      && calls[i].reply == ReplyOf(Found(i), window, limit, calls[i].now)
    }

    /** Every call runs the script on the key it finds, clocks do not run backwards, and
        Redis drops the key only once its deadline has come. */
    ghost predicate IsRun(window: int, limit: int) {
      && |keys| == |calls| + 1
      && keys[0] == NoKey
      && (forall i: nat :: i < |calls| ==> Step(window, limit, i))
      && (forall i, j :: 0 <= i <= j < |calls| ==> calls[i].now <= calls[j].now)
    }

    /** No two calls produce the same member. */
    predicate Distinct() {
      forall i, j :: 0 <= i < j < |calls| ==> calls[i].Id() != calls[j].Id()
    }

    /** The calls before n that were admitted with a timestamp in (lo, hi]: the full history. */
    function History(n: nat, lo: int, hi: int): set<nat>
      requires n <= |calls|
    {
      set i: nat | i < n && Admits(i) && lo < calls[i].now <= hi
    }

    /** What the history of call i holds inside its window (now - window, now]. */
    function InWindow(window: int, i: nat): set<nat>
      requires i < |calls|
    {
      History(i, calls[i].now - window, calls[i].now)
    }

    /** The members some calls wrote. */
    function Members(some: set<nat>): set<Member>
      requires forall i :: i in some ==> i < |calls|
    {
      set i | i in some :: calls[i].Id()
    }
  }

  /** Member m was written by an admitted call before n. */
  ghost predicate Wrote(t: Trace, n: nat, m: Member)
    requires n <= |t.calls|
  {
    exists i: nat :: i < n && t.Admits(i) && t.calls[i].Id() == m
  }

  /** What the key knows before call n: every stored member was admitted, every admitted member
      that a window ending at `now` or later can contain is stored, and the deadline lies a full
      window after every admission. */
  ghost predicate Tracks(t: Trace, window: int, k: Key, n: nat, now: int)
    requires n <= |t.calls|
  {
    && (forall m :: m in k.zset ==> k.zset[m] == m.stamp && Wrote(t, n, m))
    && (forall i: nat :: i < n && t.Admits(i) && t.calls[i].now > now - window ==> t.calls[i].Id() in k.zset)
    && (k.deadline.Some? ==> forall i: nat :: i < n && t.Admits(i) ==> t.calls[i].now + window <= k.deadline.value)
  }

  /** Dropping an expired key loses nothing that the next window can contain. */
  lemma FoundTracks(t: Trace, window: int, limit: int, n: nat)
    requires t.IsRun(window, limit) && n < |t.calls|
    requires Tracks(t, window, t.keys[n], n, t.calls[n].now)
    ensures Tracks(t, window, t.Found(n), n, t.calls[n].now)
  {
    assert t.Step(window, limit, n);
  }

  /** After the purge the set holds exactly the members the full history has in the window. */
  lemma PurgedIsWindow(t: Trace, window: int, k: Key, n: nat)
    requires n < |t.calls| && forall i :: 0 <= i < n ==> t.calls[i].now <= t.calls[n].now
    requires Tracks(t, window, k, n, t.calls[n].now)
    ensures Purge(k.zset, t.calls[n].now - window).Keys == t.Members(t.InWindow(window, n))
  {
    var z := Purge(k.zset, t.calls[n].now - window);
    forall m | m in z.Keys
      ensures m in t.Members(t.InWindow(window, n))
    {
      assert Wrote(t, n, m);
      var i: nat :| i < n && t.Admits(i) && t.calls[i].Id() == m;
      assert i in t.InWindow(window, n);
    }
  }

  /** Purging members the window cannot contain keeps the relation. */
  lemma PurgeTracks(t: Trace, window: int, k: Key, n: nat)
    requires n < |t.calls|
    requires Tracks(t, window, k, n, t.calls[n].now)
    ensures Tracks(t, window, Key(Purge(k.zset, t.calls[n].now - window), k.deadline), n, t.calls[n].now)
    ensures Tracks(t, window, Settled(Purge(k.zset, t.calls[n].now - window), k.deadline), n, t.calls[n].now)
  {
  }

  /** Adding the member of an admitted call keeps the relation. */
  lemma AddTracks(t: Trace, window: int, k: Key, n: nat)
    requires n < |t.calls| && forall i :: 0 <= i < n ==> t.calls[i].now <= t.calls[n].now
    requires Tracks(t, window, k, n, t.calls[n].now)
    requires t.Admits(n)
    ensures Tracks(t, window, PExpire(Key(k.zset[t.calls[n].Id() := t.calls[n].now], k.deadline), t.calls[n].now, window),
                   n + 1, t.calls[n].now)
  {
    var c := t.calls[n];
    forall m | m in k.zset || m == c.Id()
      ensures Wrote(t, n + 1, m)
    {
      if m != c.Id() {
        assert Wrote(t, n, m);
      }
    }
  }

  lemma SkipTracks(t: Trace, window: int, k: Key, n: nat)
    requires n < |t.calls| && !t.Admits(n)
    requires Tracks(t, window, k, n, t.calls[n].now)
    ensures Tracks(t, window, k, n + 1, t.calls[n].now)
  {
    forall m | m in k.zset
      ensures Wrote(t, n + 1, m)
    {
      assert Wrote(t, n, m);
    }
  }

  /** One call of the script keeps the relation. */
  lemma ScriptTracks(t: Trace, window: int, limit: int, k: Key, n: nat)
    requires n < |t.calls| && forall i :: 0 <= i < n ==> t.calls[i].now <= t.calls[n].now
    requires Tracks(t, window, k, n, t.calls[n].now)
    requires ReplyOf(k, window, limit, t.calls[n].now) == t.calls[n].reply
    ensures Tracks(t, window, Script(k, window, limit, t.calls[n].now, t.calls[n].salt), n + 1, t.calls[n].now)
  {
    hide Tracks;
    var c := t.calls[n];
    var z := Purge(k.zset, c.now - window);
    var k' := Script(k, window, limit, c.now, c.salt);
    if t.Admits(n) {
      assert k' == PExpire(Key(z[c.Id() := c.now], k.deadline), c.now, window);
      assert Tracks(t, window, k', n + 1, c.now) by {
        PurgeTracks(t, window, k, n);
        AddTracks(t, window, Key(z, k.deadline), n);
      }
    } else {
      assert k' == Settled(z, k.deadline);
      assert Tracks(t, window, k', n + 1, c.now) by {
        PurgeTracks(t, window, k, n);
        SkipTracks(t, window, k', n);
      }
    }
  }

  /** A later window reaches no further back. */
  lemma LaterTracks(t: Trace, window: int, k: Key, n: nat, now: int, later: int)
    requires n <= |t.calls| && Tracks(t, window, k, n, now) && now <= later
    ensures Tracks(t, window, k, n, later)
  {
  }

  lemma StepAt(t: Trace, window: int, limit: int, i: nat)
    requires t.IsRun(window, limit) && i < |t.calls|
    ensures t.keys[i + 1] == Script(t.Found(i), window, limit, t.calls[i].now, t.calls[i].salt)
    ensures t.calls[i].reply == ReplyOf(t.Found(i), window, limit, t.calls[i].now)
  {
    assert t.Step(window, limit, i);
  }

  lemma {:induction false} TracksHolds(t: Trace, window: int, limit: int, n: nat)
    requires t.IsRun(window, limit) && n < |t.calls|
    ensures Tracks(t, window, t.Found(n), n, t.calls[n].now)
  {
    if n > 0 {
      TracksHolds(t, window, limit, n - 1);
      StepAt(t, window, limit, n - 1);
      ScriptTracks(t, window, limit, t.Found(n - 1), n - 1);
      LaterTracks(t, window, t.keys[n], n, t.calls[n - 1].now, t.calls[n].now);
    }
    FoundTracks(t, window, limit, n);
  }

  lemma WindowSet(t: Trace, window: int, limit: int, i: nat) returns (z: map<Member, nat>)
    requires t.IsRun(window, limit) && i < |t.calls|
    ensures z == Purge(t.Found(i).zset, t.calls[i].now - window)
    ensures z.Keys == t.Members(t.InWindow(window, i))
    ensures forall m :: m in z ==> z[m] == m.stamp
  {
    TracksHolds(t, window, limit, i);
    PurgedIsWindow(t, window, t.Found(i), i);
    z := Purge(t.Found(i).zset, t.calls[i].now - window);
  }

  /** The reply depends on the key only through the set left by the purge. */
  lemma ScriptDecides(k: Key, window: int, limit: int, now: nat)
    ensures var (z, reply) := (Purge(k.zset, now - window), ReplyOf(k, window, limit, now));
            && |z.Keys| == |z|
            && (reply.Admitted? <==> |z.Keys| < limit)
            && (reply.Admitted? ==> reply.remaining == limit - |z.Keys| - 1)
            && (reply.Denied? && z != map[] ==> reply.reset == Oldest(z) + window)
  {
  }

  /** The main theorem for every run: call i is admitted exactly when fewer than `limit`
      distinct members were admitted in (now - window, now], judged on the full history. */
  lemma ExactOnMembers(t: Trace, window: int, limit: int, i: nat)
    requires t.IsRun(window, limit) && i < |t.calls|
    ensures t.Admits(i) <==> |t.Members(t.InWindow(window, i))| < limit
    ensures t.Admits(i) ==> t.calls[i].reply.remaining == limit - |t.Members(t.InWindow(window, i))| - 1
  {
    var z := WindowSet(t, window, limit, i);
    ScriptDecides(t.Found(i), window, limit, t.calls[i].now);
    StepAt(t, window, limit, i);
  }

  lemma {:induction false} DistinctCount(t: Trace, some: set<nat>)
    requires t.Distinct() && forall i :: i in some ==> i < |t.calls|
    ensures |t.Members(some)| == |some|
    decreases some
  {
    if some != {} {
      var i :| i in some;
      var rest := some - {i};
      DistinctCount(t, rest);
      var id := t.calls[i].Id();
      assert id !in t.Members(rest);
      assert t.Members(some) == t.Members(rest) + {id};
    }
  }

  /** With distinct members the script decides exactly as the never purged history would. */
  lemma Exact(t: Trace, window: int, limit: int, i: nat)
    requires t.IsRun(window, limit) && t.Distinct() && i < |t.calls|
    ensures t.Admits(i) <==> |t.InWindow(window, i)| < limit
  {
    ExactOnMembers(t, window, limit, i);
    DistinctCount(t, t.InWindow(window, i));
  }

  lemma {:induction false} NoMoreMembers(t: Trace, some: set<nat>)
    requires forall i :: i in some ==> i < |t.calls|
    ensures |t.Members(some)| <= |some|
    decreases some
  {
    if some != {} {
      var i :| i in some;
      var rest := some - {i};
      NoMoreMembers(t, rest);
      assert t.Members(some) == t.Members(rest) + {t.calls[i].Id()};
    }
  }

  /** Without distinct members, call by call: the decision is not the history's if and only if the
      members in the window are fewer than the admissions in it, fewer than `limit`, and the
      admissions are not.  The script then admits one too many; it never denies one too many. */
  lemma DiffersExactly(t: Trace, window: int, limit: int, i: nat)
    requires t.IsRun(window, limit) && i < |t.calls|
    ensures t.Admits(i) != (|t.InWindow(window, i)| < limit)
            <==> |t.Members(t.InWindow(window, i))| < limit <= |t.InWindow(window, i)|
    ensures |t.InWindow(window, i)| < limit ==> t.Admits(i)
  {
    ExactOnMembers(t, window, limit, i);
    NoMoreMembers(t, t.InWindow(window, i));
  }

  lemma Smaller<T>(a: set<T>, b: set<T>)
    requires a <= b
    ensures |a| <= |b|
  {
    var c := b - a;
    assert b == a + c;
  }

  lemma {:induction false} LastOf(s: set<nat>) returns (last: nat)
    requires s != {}
    ensures last in s && forall i :: i in s ==> i <= last
    decreases s
  {
    last :| last in s;
    if s != {last} {
      var other := LastOf(s - {last});
      assert forall i :: i in s ==> i == last || i in s - {last};
      last := if other > last then other else last;
    }
  }

  lemma MembersGrow(t: Trace, some: set<nat>, more: set<nat>)
    requires some <= more && forall i :: i in more ==> i < |t.calls|
    ensures t.Members(some) <= t.Members(more) && |t.Members(some)| <= |t.Members(more)|
  {
    Smaller(t.Members(some), t.Members(more));
  }

  lemma OneMoreMember(t: Trace, some: set<nat>, i: nat)
    requires i in some && forall j :: j in some ==> j < |t.calls|
    ensures |t.Members(some)| <= |t.Members(some - {i})| + 1
  {
    var rest, id := t.Members(some - {i}), t.calls[i].Id();
    assert t.Members(some) == rest + {id};
  }

  /** On every run, no interval of length `window`, wherever it ends, holds admissions of more than
      `limit` distinct members. */
  lemma MemberBound(t: Trace, window: int, limit: int, end: int)
    requires t.IsRun(window, limit) && limit >= 0
    ensures |t.Members(t.History(|t.calls|, end - window, end))| <= limit
  {
    var all := t.History(|t.calls|, end - window, end);
    if all != {} {
      var i := LastOf(all);
      ExactOnMembers(t, window, limit, i);
      assert all - {i} <= t.InWindow(window, i);
      hide Trace.Members, Trace.InWindow, Trace.History, Trace.Admits, Trace.IsRun;
      MembersGrow(t, all - {i}, t.InWindow(window, i));
      OneMoreMember(t, all, i);
    }
  }

  /** With distinct members, no interval of length `window`, wherever it ends, holds more than `limit`
      admissions. */
  lemma RateBound(t: Trace, window: int, limit: int, end: int)
    requires t.IsRun(window, limit) && t.Distinct() && limit >= 0
    ensures |t.History(|t.calls|, end - window, end)| <= limit
  {
    MemberBound(t, window, limit, end);
    DistinctCount(t, t.History(|t.calls|, end - window, end));
  }

  /** Expiring the key never changes a decision: two runs with the same timestamps and suffixes,
      in which Redis drops the key at different calls or never, admit the same requests. */
  lemma {:induction false} ExpiryIsInvisible(t: Trace, u: Trace, window: int, limit: int, i: nat)
    requires t.IsRun(window, limit) && u.IsRun(window, limit)
    requires |t.calls| == |u.calls|
    requires forall j :: 0 <= j < |t.calls| ==> t.calls[j].now == u.calls[j].now && t.calls[j].salt == u.calls[j].salt
    requires i < |t.calls|
    ensures t.Admits(i) == u.Admits(i)
  {
    forall j: nat | j < i
      ensures t.Admits(j) == u.Admits(j)
    {
      ExpiryIsInvisible(t, u, window, limit, j);
    }
    ExactOnMembers(t, window, limit, i);
    ExactOnMembers(u, window, limit, i);
    assert t.InWindow(window, i) == u.InWindow(window, i);
    assert forall j :: j in t.InWindow(window, i) ==> t.calls[j].Id() == u.calls[j].Id();
    assert t.Members(t.InWindow(window, i)) == u.Members(u.InWindow(window, i));
  }

  // ---------- the reset hint ----------

  /** The lowest score of a set that stands for some calls is the timestamp of one of them. */
  lemma OldestCall(t: Trace, z: map<Member, nat>, some: set<nat>) returns (oldest: nat)
    requires z != map[] && forall m :: m in z ==> z[m] == m.stamp
    requires forall i :: i in some ==> i < |t.calls|
    requires z.Keys == t.Members(some)
    ensures oldest in some && t.calls[oldest].now == Oldest(z)
    ensures forall i :: i in some ==> t.calls[oldest].now <= t.calls[i].now
  {
    var score := Oldest(z);
    var m :| m in z && z[m] == score;
    assert m in t.Members(some);
    oldest :| oldest in some && t.calls[oldest].Id() == m;
    forall i | i in some
      ensures t.calls[oldest].now <= t.calls[i].now
    {
      var id := t.calls[i].Id();
      assert id in t.Members(some);
      assert id in z;
      assert score <= z[id];
    }
  }

  lemma ResetCall(t: Trace, window: int, limit: int, k: nat) returns (oldest: nat)
    requires t.IsRun(window, limit)
    requires k < |t.calls| && !t.Admits(k) && t.InWindow(window, k) != {}
    ensures oldest in t.InWindow(window, k)
    ensures forall i :: i in t.InWindow(window, k) ==> t.calls[oldest].now <= t.calls[i].now
    ensures t.calls[k].reply == Denied(t.calls[oldest].now + window)
  {
    var z := WindowSet(t, window, limit, k);
    var some := t.InWindow(window, k);
    assert z != map[] by {
      var any :| any in some;
      assert t.calls[any].Id() in t.Members(some);
    }
    assert t.calls[k].reply == Denied(Oldest(z) + window) by {
      ScriptDecides(t.Found(k), window, limit, t.calls[k].now);
      StepAt(t, window, limit, k);
    }
    oldest := OldestCall(t, z, some);
  }

  /** A denied call has admissions of exactly `limit` distinct members in its window, and its reset is
      one window after the oldest of them. */
  lemma DeniedReset(t: Trace, window: int, limit: int, k: nat) returns (oldest: nat)
    requires t.IsRun(window, limit) && limit >= 1
    requires k < |t.calls| && !t.Admits(k)
    ensures |t.Members(t.InWindow(window, k))| == limit
    ensures t.Distinct() ==> |t.InWindow(window, k)| == limit
    ensures oldest in t.InWindow(window, k)
    ensures forall i :: i in t.InWindow(window, k) ==> t.calls[oldest].now <= t.calls[i].now
    ensures t.calls[k].reply == Denied(t.calls[oldest].now + window)
  {
    ExactOnMembers(t, window, limit, k);
    var lo, hi := t.calls[k].now - window, t.calls[k].now;
    MemberBound(t, window, limit, hi);
    MembersGrow(t, t.InWindow(window, k), t.History(|t.calls|, lo, hi));
    if t.Distinct() {
      DistinctCount(t, t.InWindow(window, k));
    }
    oldest := ResetCall(t, window, limit, k);
  }

  /** Once a call is denied with some `reset`, every later call before `reset` is denied. */
  lemma DeniedUntilReset(t: Trace, window: int, limit: int, k: nat, i: nat)
    requires t.IsRun(window, limit) && limit >= 1
    requires k < i < |t.calls| && !t.Admits(k)
    requires t.calls[i].now < t.calls[k].reply.reset
    ensures !t.Admits(i)
  {
    var oldest := DeniedReset(t, window, limit, k);
    ExactOnMembers(t, window, limit, i);
    assert t.InWindow(window, k) <= t.InWindow(window, i);
    MembersGrow(t, t.InWindow(window, k), t.InWindow(window, i));
  }

  /** ... and the first call at or after `reset` is admitted, so `reset` is exactly the
      first instant at which a request on the key gets through; repeated members or not. */
  lemma AdmittedAtReset(t: Trace, window: int, limit: int, k: nat, i: nat)
    requires t.IsRun(window, limit) && limit >= 1
    requires k < i < |t.calls| && !t.Admits(k)
    requires forall j :: k < j < i ==> t.calls[j].now < t.calls[k].reply.reset
    requires t.calls[k].reply.reset <= t.calls[i].now
    ensures t.Admits(i)
  {
    var oldest := DeniedReset(t, window, limit, k);
    var before := t.Members(t.InWindow(window, k));
    var id := t.calls[oldest].Id();
    assert id in before;
    forall j | j in t.InWindow(window, i)
      ensures j in t.InWindow(window, k) && t.calls[j].Id() != id
    {
      if k < j {
        DeniedUntilReset(t, window, limit, k, j);
      }
    }
    assert t.Members(t.InWindow(window, i)) <= before - {id};
    Smaller(t.Members(t.InWindow(window, i)), before - {id});
    ExactOnMembers(t, window, limit, i);
  }

  // ---------- colliding members ----------

  const FIRST := Member(1, 7)
  const SECOND := Member(1, 8)

  /** Three calls in one millisecond; the first two draw the same suffix. */
  function CollidingRun(): Trace {
    var k1 := Key(map[FIRST := 1], Some(1001));
    Trace([NoKey, k1, k1, Key(map[FIRST := 1, SECOND := 1], Some(1001))],
          [Call(1, 7, false, Admitted(1)), Call(1, 7, false, Admitted(0)), Call(1, 8, false, Admitted(0))])
  }

  lemma CollidingSteps()
    ensures CollidingRun().Step(1000, 2, 0) && CollidingRun().Step(1000, 2, 1) && CollidingRun().Step(1000, 2, 2)
  {
    var z: map<Member, nat> := map[FIRST := 1];
    assert Purge(map[], -999) == map[];
    assert Purge(z, -999) == z && |z| == 1;
    assert z[FIRST := 1] == z;
    assert z[SECOND := 1] == map[FIRST := 1, SECOND := 1];
  }

  /** Distinct members are needed for the bound: with a limit of two, a repeated random
      suffix in one millisecond lets a third request through. */
  lemma CollisionOverAdmits()
    ensures exists t: Trace :: t.IsRun(1000, 2) && |t.History(|t.calls|, 0, 1000)| == 3
  {
    CollidingSteps();
    hide Trace.Step;
    var t := CollidingRun();
    assert t.IsRun(1000, 2);
    assert t.History(3, 0, 1000) == {0, 1, 2};
  }
}
