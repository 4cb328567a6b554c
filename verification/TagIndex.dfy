/** Tag-based cache invalidation: a Redis set per tag lists the keys to delete with it, and
    invalidations travel to other instances as a comma-separated message. */
module TagIndex {
  import opened Wrappers
  import opened Strings

  /** What a Redis key holds. */
  datatype Entry = Text(value: string) | Members(keys: set<string>)

  type Db = map<string, Entry>

  const PREFIX := "tag:"

  function TagKey(tag: string): string { PREFIX + tag }

  /** A key a client may cache under: outside the namespace of the tag sets. */
  predicate Plain(key: string) { !(PREFIX <= key) }

  lemma TagKeyInjective(a: string, b: string)
    ensures TagKey(a) == TagKey(b) <==> a == b
    ensures TagKey(a) == "tag:" + a
    ensures !Plain(TagKey(a))
  {
    assert a == TagKey(a)[|PREFIX|..] && b == TagKey(b)[|PREFIX|..];
  }

  /** SMEMBERS of a tag set; a missing key is an empty set. */
  function MembersOf(db: Db, tag: string): set<string> {
    if TagKey(tag) in db && db[TagKey(tag)].Members? then db[TagKey(tag)].keys else {}
  }

  /** SADD. */
  function Tagged(db: Db, tag: string, key: string): Db {
    db[TagKey(tag) := Members(MembersOf(db, tag) + {key})]
  }

  function TaggedAll(db: Db, tags: seq<string>, key: string): Db {
    if tags == [] then db else Tagged(TaggedAll(db, tags[..|tags| - 1], key), tags[|tags| - 1], key)
  }

  /** What DEL returns: how many of the keys existed. */
  function DelCount(db: Db, keys: set<string>): nat {
    |set k | k in keys && k in db|
  }

  /** The second command of InvalidateByTag: DEL of the members read before and of the tag set.  It is
      left out when there were none. */
  function DeleteRead(db: Db, tag: string, keys: set<string>): (Db, int) {
    if keys == {} then (db, 0)
    else (db - (keys + {TagKey(tag)}), DelCount(db, keys + {TagKey(tag)}) - 1)
  }

  /** InvalidateByTag undisturbed: the new database and the returned count. */
  function Invalidate(db: Db, tag: string): (Db, int) {
    DeleteRead(db, tag, MembersOf(db, tag))
  }

  /** InvalidateByTags when no call fails. */
  function InvalidateAll(db: Db, tags: seq<string>): (Db, int) {
    if tags == [] then (db, 0)
    else
      var (before, total) := InvalidateAll(db, tags[..|tags| - 1]);
      var (after, n) := Invalidate(before, tags[|tags| - 1]);
      (after, total + n)
  }

  class Client {
    var db: Db

    constructor ()
      ensures db == map[]
    {
      db := map[];
    }

    /** SetWithTags: a failed SET is an error; the pipeline of SADDs stops after `piped` of them when it
        fails, which is only logged. */
    method SetWithTags(key: string, value: string, tags: seq<string>, set_: Net, piped: nat) returns (ok: bool)
      modifies this
      ensures ok == set_.Up?
      ensures db == if set_.Down? then old(db)
                    else
                      var done := if !ok then 0 else if piped < |tags| then piped else |tags|;
                      TaggedAll(old(db)[key := Text(value)], tags[..done], key)
    {
      if set_.Down? {
        return false;
      }
      db := db[key := Text(value)];
      assert tags[..0] == [];
      if set_.ReplyLost? {
        return false;
      }
      ghost var written := db;
      var i := 0;
      while i < |tags| && i < piped
        invariant 0 <= i <= |tags| && i <= piped
        invariant db == TaggedAll(written, tags[..i], key)
      {
        db := Tagged(db, tags[i], key);
        assert tags[..i + 1][..i] == tags[..i];
        i := i + 1;
      }
      ok := true;
    }

    /** InvalidateByTag without interference. */
    method InvalidateByTag(tag: string, readUp: bool, del: Net) returns (n: Option<int>)
      modifies this
      ensures db == if readUp && del.Effective() then Invalidate(old(db), tag).0 else old(db)
      ensures n == if readUp && (del.Up? || MembersOf(old(db), tag) == {}) then Some(Invalidate(old(db), tag).1) else None
    {
      if !readUp {
        return None;
      }
      var keys := MembersOf(db, tag);
      if |keys| == 0 {
        return Some(0);
      }
      var allKeys := keys + {TagKey(tag)};
      var deleted: int := DelCount(db, allKeys);
      if del.Effective() {
        db := db - allKeys;
      }
      n := if del.Up? then Some(deleted - 1) else None;
    }

    /** The first failing call ends the loop; `calls` says which commands get through. */
    method InvalidateByTags(tags: seq<string>, calls: nat -> (bool, Net)) returns (total: int, done: nat, ok: bool)
      modifies this
      ensures done <= |tags| && (ok <==> done == |tags|)
      ensures !ok ==> !(calls(done).0 && calls(done).1.Up?)
      ensures total == InvalidateAll(old(db), tags[..done]).1
      ensures db == if !ok && calls(done).0 && calls(done).1.ReplyLost? then InvalidateAll(old(db), tags[..done + 1]).0
                    else InvalidateAll(old(db), tags[..done]).0
    {
      total, done := 0, 0;
      while done < |tags|
        invariant 0 <= done <= |tags|
        invariant (db, total) == InvalidateAll(old(db), tags[..done])
      {
        assert tags[..done + 1][..done] == tags[..done];
        var n := InvalidateByTag(tags[done], calls(done).0, calls(done).1);
        if n == None {
          return total, done, false;
        }
        total := total + n.value;
        done := done + 1;
      }
      ok := true;
    }
  }

  // ---------- soundness over whole runs ----------

  /** The database, and for each live key the tags of its latest tagged write, if it had one since
      the key was last absent. */
  datatype State = State(db: Db, latest: map<string, set<string>>)

  datatype Event =
    | SetTagged(key: string, value: string, tags: seq<string>)
    | SetPlain(key: string, value: string)
    | Delete(key: string)          // an explicit delete, or the key's TTL running out
    | InvalidateTag(tag: string)

  predicate Enabled(e: Event) {
    e.InvalidateTag? || Plain(e.key)
  }

  function Next(s: State, e: Event): State {
    match e
    case SetTagged(key, value, tags) =>
      State(TaggedAll(s.db[key := Text(value)], tags, key), s.latest[key := set t | t in tags])
    case SetPlain(key, value) => s.(db := s.db[key := Text(value)])
    case Delete(key) => State(s.db - {key}, s.latest - {key})
    case InvalidateTag(tag) => State(Invalidate(s.db, tag).0, s.latest - MembersOf(s.db, tag))
  }

  /** Tag keys hold non-empty sets of plain keys. */
  ghost predicate WellFormed(db: Db) {
    forall k :: k in db && !Plain(k) ==> db[k].Members? && db[k].keys != {} && forall m :: m in db[k].keys ==> Plain(m)
  }

  /** A live key is listed under every tag of its latest tagged write. */
  ghost predicate Indexed(s: State) {
    && (forall k :: k in s.latest ==> k in s.db && Plain(k))
    && forall k, t :: k in s.latest && t in s.latest[k] ==> k in MembersOf(s.db, t)
  }

  lemma {:induction false} TaggedAllEffect(db: Db, tags: seq<string>, key: string)
    requires WellFormed(db) && Plain(key)
    ensures WellFormed(TaggedAll(db, tags, key))
    ensures forall k :: Plain(k) ==> (k in TaggedAll(db, tags, key) <==> k in db)
    ensures forall t :: MembersOf(TaggedAll(db, tags, key), t) == MembersOf(db, t) + if t in tags then {key} else {}
  {
    if tags != [] {
      var n := |tags| - 1;
      var before, after := TaggedAll(db, tags[..n], key), TaggedAll(db, tags, key);
      TaggedAllEffect(db, tags[..n], key);
      TagKeyInjective(tags[n], tags[n]);
      assert after == Tagged(before, tags[n], key);
      forall t
        ensures MembersOf(after, t) == MembersOf(db, t) + if t in tags then {key} else {}
      {
        TagKeyInjective(t, tags[n]);
        assert tags == tags[..n] + [tags[n]];
      }
    }
  }

  /** What the second command does to a database. */
  lemma DeleteEffect(db: Db, tag: string, keys: set<string>)
    requires WellFormed(db) && forall k :: k in keys ==> Plain(k)
    ensures var after := DeleteRead(db, tag, keys).0;
            && WellFormed(after)
            && (forall k :: Plain(k) ==> (k in after <==> k in db && k !in keys))
            && (forall t :: MembersOf(after, t) == if t == tag && keys != {} then {} else MembersOf(db, t))
  {
    TagKeyInjective(tag, tag);
    var after := DeleteRead(db, tag, keys).0;
    forall t
      ensures MembersOf(after, t) == if t == tag && keys != {} then {} else MembersOf(db, t)
    {
      TagKeyInjective(t, tag);
      assert TagKey(t) !in keys;
    }
  }

  /** Invalidation removes exactly the keys listed under the tag, and empties the list. */
  lemma InvalidateEffect(db: Db, tag: string)
    requires WellFormed(db)
    ensures WellFormed(Invalidate(db, tag).0)
    ensures forall k :: Plain(k) ==> (k in Invalidate(db, tag).0 <==> k in db && k !in MembersOf(db, tag))
    ensures forall t :: MembersOf(Invalidate(db, tag).0, t) == if t == tag then {} else MembersOf(db, t)
    ensures Invalidate(db, tag).1 == |set k | k in MembersOf(db, tag) && k in db|
  {
    MembersPlain(db, tag);
    DeleteEffect(db, tag, MembersOf(db, tag));
    LiveCount(db, tag);
    hide WellFormed, Plain, DeleteRead;
  }

  /** DEL counts the live members and the tag set itself. */
  lemma LiveCount(db: Db, tag: string)
    requires WellFormed(db)
    ensures Invalidate(db, tag).1 == |set k | k in MembersOf(db, tag) && k in db|
  {
    MembersPlain(db, tag);
    TagKeyInjective(tag, tag);
    hide Plain, TagKey, WellFormed;
    var keys := MembersOf(db, tag);
    var live := set k | k in keys && k in db;
    if keys != {} {
      assert (set k | k in keys + {TagKey(tag)} && k in db) == live + {TagKey(tag)};
    } else {
      assert live == {};
    }
  }

  lemma StepSound(s: State, e: Event)
    requires WellFormed(s.db) && Indexed(s) && Enabled(e)
    ensures WellFormed(Next(s, e).db) && Indexed(Next(s, e))
  {
    match e
    case SetTagged(key, value, tags) =>
      var written := s.db[key := Text(value)];
      assert forall t :: MembersOf(written, t) == MembersOf(s.db, t) by {
        forall t { TagKeyInjective(t, t); }
      }
      TaggedAllEffect(written, tags, key);
    case InvalidateTag(tag) =>
      InvalidateEffect(s.db, tag);
      var s' := Next(s, e);
      forall k, t | k in s'.latest && t in s'.latest[k]
        ensures k in MembersOf(s'.db, t)
      {
        assert k in MembersOf(s.db, t);
      }
    case _ =>
      forall t
        ensures MembersOf(Next(s, e).db, t) == MembersOf(s.db, t)
      {
        TagKeyInjective(t, t);
      }
  }

  ghost predicate IsRun(states: seq<State>, events: seq<Event>) {
    && |states| == |events| + 1
    && states[0] == State(map[], map[])
    && forall i: nat :: i < |events| ==> Enabled(events[i]) && states[i + 1] == Next(states[i], events[i])
  }

  lemma {:induction false} RunSound(states: seq<State>, events: seq<Event>, n: nat)
    requires IsRun(states, events) && n <= |events|
    ensures WellFormed(states[n].db) && Indexed(states[n])
  {
    if n > 0 {
      RunSound(states, events, n - 1);
      StepSound(states[n - 1], events[n - 1]);
    }
  }

  /** Over every run: after a tag is invalidated no key survives whose latest tagged write carried
      the tag, while keys not listed under it stay as they were. */
  lemma InvalidationComplete(states: seq<State>, events: seq<Event>, i: nat, key: string)
    requires IsRun(states, events) && i < |events| && events[i].InvalidateTag? && Plain(key)
    ensures key in states[i + 1].latest ==> events[i].tag !in states[i + 1].latest[key]
    ensures key in states[i].latest && events[i].tag in states[i].latest[key] ==> key !in states[i + 1].db
    ensures key in states[i].db && key !in MembersOf(states[i].db, events[i].tag) ==>
              key in states[i + 1].db && states[i + 1].db[key] == states[i].db[key]
  {
    RunSound(states, events, i);
    InvalidateEffect(states[i].db, events[i].tag);
    TagKeyInjective(events[i].tag, events[i].tag);
  }

  // ---------- several tags at once ----------

  /** The live keys listed under some of the tags. */
  function LiveUnder(db: Db, tags: set<string>): set<string> {
    set k | k in db && exists t :: t in tags && k in MembersOf(db, t)
  }

  function TagSet(tags: seq<string>): set<string> {
    set t | t in tags
  }

  /** The second database is the first without the keys listed under the tags, and with those
      lists emptied. */
  ghost predicate Without(db: Db, db': Db, tags: set<string>) {
    && WellFormed(db')
    && (forall k :: Plain(k) ==> (k in db' <==> k in db && k !in LiveUnder(db, tags)))
    && (forall k :: Plain(k) && k in db' ==> db'[k] == db[k])
    && (forall t :: MembersOf(db', t) == if t in tags then {} else MembersOf(db, t))
  }

  lemma MembersPlain(db: Db, tag: string)
    requires WellFormed(db)
    ensures forall k :: k in MembersOf(db, tag) ==> Plain(k)
  {
    TagKeyInjective(tag, tag);
  }

  lemma LiveUnderOne(db: Db, tag: string)
    ensures LiveUnder(db, {tag}) == set k | k in MembersOf(db, tag) && k in db
  {
    assert tag in {tag};
  }

  /** One more tag adds the live keys that are still listed under it. */
  lemma LiveUnderSplit(db: Db, db1: Db, tags: set<string>, tag: string)
    requires WellFormed(db) && Without(db, db1, tags)
    ensures LiveUnder(db, tags + {tag}) == LiveUnder(db, tags) + LiveUnder(db1, {tag})
    ensures LiveUnder(db, tags) !! LiveUnder(db1, {tag})
  {
    MembersPlain(db, tag);
    LiveUnderOne(db1, tag);
    hide MembersOf, WellFormed;
    forall k
      ensures k in LiveUnder(db, tags + {tag}) <==> k in LiveUnder(db, tags) + LiveUnder(db1, {tag})
    {
      if k in db && k in MembersOf(db, tag) {
        assert tag in tags + {tag};
      }
    }
  }

  lemma WithoutMore(db: Db, db1: Db, db2: Db, tags: set<string>, tag: string)
    requires WellFormed(db) && Without(db, db1, tags) && Without(db1, db2, {tag})
    ensures Without(db, db2, tags + {tag})
  {
    LiveUnderSplit(db, db1, tags, tag);
    hide MembersOf, WellFormed, LiveUnder, Plain;
  }

  lemma InvalidateOne(db: Db, tag: string)
    requires WellFormed(db)
    ensures Without(db, Invalidate(db, tag).0, {tag})
    ensures Invalidate(db, tag).1 == |LiveUnder(db, {tag})|
  {
    InvalidateEffect(db, tag);
    LiveUnderOne(db, tag);
    hide MembersOf, WellFormed;
  }

  lemma InvalidateOneMore(db: Db, db1: Db, tags: set<string>, tag: string)
    requires WellFormed(db) && Without(db, db1, tags)
    ensures Without(db, Invalidate(db1, tag).0, tags + {tag})
    ensures |LiveUnder(db, tags)| + Invalidate(db1, tag).1 == |LiveUnder(db, tags + {tag})|
  {
    InvalidateOne(db1, tag);
    LiveUnderSplit(db, db1, tags, tag);
    WithoutMore(db, db1, Invalidate(db1, tag).0, tags, tag);
    hide Invalidate, LiveUnder;
  }

  lemma {:induction false} InvalidateAllEffect(db: Db, tags: seq<string>)
    requires WellFormed(db)
    ensures Without(db, InvalidateAll(db, tags).0, TagSet(tags))
    ensures InvalidateAll(db, tags).1 == |LiveUnder(db, TagSet(tags))|
  {
    if tags == [] {
      assert LiveUnder(db, TagSet(tags)) == {};
    } else {
      var n := |tags| - 1;
      assert tags == tags[..n] + [tags[n]];
      assert TagSet(tags) == TagSet(tags[..n]) + {tags[n]};
      hide WellFormed, Invalidate, LiveUnder, TagSet, Without;
      InvalidateAllEffect(db, tags[..n]);
      InvalidateOneMore(db, InvalidateAll(db, tags[..n]).0, TagSet(tags[..n]), tags[n]);
    }
  }

  /** InvalidateByTags returns exactly the number of distinct live keys listed under any of its tags
      and leaves the same keys and lists whatever the order and the repetitions of the tags. */
  lemma OrderIrrelevant(db: Db, tags: seq<string>, tags': seq<string>)
    requires WellFormed(db) && TagSet(tags) == TagSet(tags')
    ensures InvalidateAll(db, tags).1 == InvalidateAll(db, tags').1 == |LiveUnder(db, TagSet(tags))|
    ensures forall k :: Plain(k) ==> (k in InvalidateAll(db, tags).0 <==> k in InvalidateAll(db, tags').0)
    ensures forall t :: MembersOf(InvalidateAll(db, tags).0, t) == MembersOf(InvalidateAll(db, tags').0, t)
  {
    InvalidateAllEffect(db, tags);
    InvalidateAllEffect(db, tags');
  }

  // ---------- invalidation messages ----------

  /** What a subscriber takes from a published message: split, trim, skip the empty ones. */
  function Received(msg: string): seq<string> {
    Kept(Split(msg, ','))
  }

  function Kept(parts: seq<string>): seq<string> {
    if parts == [] then []
    else
      var tag := TrimSpace(parts[0]);
      (if tag == "" then [] else [tag]) + Kept(parts[1..])
  }

  /** A tag that survives the trip. */
  predicate Sendable(tag: string) {
    tag != "" && ',' !in tag && TrimSpace(tag) == tag
  }

  lemma {:induction false} KeptSendable(parts: seq<string>)
    requires forall i :: 0 <= i < |parts| ==> ',' !in parts[i]
    ensures forall t :: t in Kept(parts) ==> Sendable(t)
  {
    if parts != [] {
      KeptSendable(parts[1..]);
      TrimTwice(parts[0]);
    }
  }

  lemma TrimTwice(s: string)
    ensures TrimSpace(TrimSpace(s)) == TrimSpace(s)
  {
  }

  lemma {:induction false} KeptAll(tags: seq<string>)
    requires forall i :: 0 <= i < |tags| ==> Sendable(tags[i])
    ensures Kept(tags) == tags
  {
    if tags != [] {
      KeptAll(tags[1..]);
    }
  }

  /** A published list of tags arrives as the same list exactly when every tag is non-empty, trimmed
      and free of commas. */
  lemma PublishRoundTrip(tags: seq<string>)
    ensures Received(Join(tags, ',')) == tags <==> forall i :: 0 <= i < |tags| ==> Sendable(tags[i])
  {
    KeptSendable(Split(Join(tags, ','), ','));
    if forall i :: 0 <= i < |tags| ==> Sendable(tags[i]) {
      if tags == [] {
        assert Kept([""]) == [] + Kept([""][1..]);
      } else {
        SplitJoin(tags, ',');
        KeptAll(tags);
      }
    }
  }

  /** Another instance that receives the message ends with the same cache as a direct call. */
  lemma SubscriberAgrees(db: Db, tags: seq<string>)
    requires forall i :: 0 <= i < |tags| ==> Sendable(tags[i])
    ensures InvalidateAll(db, Received(Join(tags, ','))) == InvalidateAll(db, tags)
  {
    PublishRoundTrip(tags);
  }

  // ---------- two instances at once ----------

  /** InvalidateByTag is two commands.  Between them other instances do anything. */
  datatype Reading = Reading(tag: string, keys: set<string>)

  datatype Overlap = Overlap(s: State, pending: map<nat, Reading>)

  datatype Action =
    | Whole(e: Event)                       // an operation that completes undisturbed
    | ReadMembers(c: nat, tag: string)      // SMEMBERS of instance c
    | DeleteMembers(c: nat)                 // its DEL

  predicate Able(o: Overlap, a: Action) {
    match a
    case Whole(e) => Enabled(e)
    case ReadMembers(c, _) => c !in o.pending
    case DeleteMembers(c) => c in o.pending
  }

  function Act(o: Overlap, a: Action): Overlap
    requires Able(o, a)
  {
    match a
    case Whole(e) => o.(s := Next(o.s, e))
    case ReadMembers(c, tag) => o.(pending := o.pending[c := Reading(tag, MembersOf(o.s.db, tag))])
    case DeleteMembers(c) =>
      var r := o.pending[c];
      Overlap(State(DeleteRead(o.s.db, r.tag, r.keys).0, o.s.latest - r.keys), o.pending - {c})
  }

  ghost predicate PlainReads(o: Overlap) {
    forall c :: c in o.pending ==> forall k :: k in o.pending[c].keys ==> Plain(k)
  }

  /** The members read are still all the keys whose latest tagged write carries the tag. */
  ghost predicate UpToDate(o: Overlap, c: nat)
    requires c in o.pending
  {
    forall k :: k in o.s.latest && o.pending[c].tag in o.s.latest[k] ==> k in o.pending[c].keys
  }

  /** The count InvalidateByTag returns is right if and only if the tag set was still there to be deleted
      with its members; otherwise it is one too low. */
  lemma CountExactly(db: Db, tag: string, keys: set<string>)
    requires keys != {} && forall k :: k in keys ==> Plain(k)
    ensures var live := |set k | k in keys && k in db|;
            && (DeleteRead(db, tag, keys).1 == live <==> TagKey(tag) in db)
            && (DeleteRead(db, tag, keys).1 == live - 1 <==> TagKey(tag) !in db)
  {
    TagKeyInjective(tag, tag);
    hide Plain, TagKey;
    var live, both := set k | k in keys && k in db, set k | k in keys + {TagKey(tag)} && k in db;
    assert both == if TagKey(tag) in db then live + {TagKey(tag)} else live;
  }

  /** Two instances that read the same members and then delete them: the second returns -1, on every
      database. */
  lemma SecondCountNegative(db: Db, tag: string)
    requires WellFormed(db) && MembersOf(db, tag) != {}
    ensures DeleteRead(Invalidate(db, tag).0, tag, MembersOf(db, tag)).1 == -1
  {
    var keys, after := MembersOf(db, tag), Invalidate(db, tag).0;
    MembersPlain(db, tag);
    CountExactly(after, tag, keys);
    assert (set k | k in keys && k in after) == {};
  }

  /** The index survives the second command exactly when the members read are up to date, or there were
      none and nothing is deleted. */
  lemma DeleteKeepsIndex(o: Overlap, c: nat)
    requires WellFormed(o.s.db) && Indexed(o.s) && PlainReads(o) && c in o.pending
    ensures WellFormed(Act(o, DeleteMembers(c)).s.db)
    ensures Indexed(Act(o, DeleteMembers(c)).s) <==> o.pending[c].keys == {} || UpToDate(o, c)
  {
    hide Plain, MembersOf, DeleteRead, WellFormed;
    var r, s' := o.pending[c], Act(o, DeleteMembers(c)).s;
    DeleteEffect(o.s.db, r.tag, r.keys);
    assert forall k :: k in s'.latest ==> k in s'.db && Plain(k);
    if r.keys == {} || UpToDate(o, c) {
      forall k, t | k in s'.latest && t in s'.latest[k]
        ensures k in MembersOf(s'.db, t)
      {
        assert k in MembersOf(o.s.db, t);
      }
    } else {
      var k :| k in o.s.latest && r.tag in o.s.latest[k] && k !in r.keys;
      assert k in s'.latest && r.tag in s'.latest[k] && MembersOf(s'.db, r.tag) == {};
    }
  }

  ghost predicate IsOverlapRun(os: seq<Overlap>, actions: seq<Action>) {
    && |os| == |actions| + 1
    && os[0] == Overlap(State(map[], map[]), map[])
    && forall i: nat :: i < |actions| ==> Able(os[i], actions[i]) && os[i + 1] == Act(os[i], actions[i])
  }

  /** Every DEL of the first n actions finds the members it read up to date, or has none. */
  ghost predicate Undisturbed(os: seq<Overlap>, actions: seq<Action>, n: nat)
    requires IsOverlapRun(os, actions) && n <= |actions|
  {
    forall i: nat :: i < n && actions[i].DeleteMembers? ==>
      assert Able(os[i], actions[i]);
      os[i].pending[actions[i].c].keys == {} || UpToDate(os[i], actions[i].c)
  }

  lemma ActSound(o: Overlap, a: Action)
    requires WellFormed(o.s.db) && PlainReads(o) && Able(o, a)
    ensures WellFormed(Act(o, a).s.db) && PlainReads(Act(o, a))
  {
    match a
    case Whole(e) => StepWellFormed(o.s, e);
    case ReadMembers(c, tag) => MembersPlain(o.s.db, tag);
    case DeleteMembers(c) => DeleteEffect(o.s.db, o.pending[c].tag, o.pending[c].keys);
  }

  lemma StepWellFormed(s: State, e: Event)
    requires WellFormed(s.db) && Enabled(e)
    ensures WellFormed(Next(s, e).db)
  {
    match e
    case SetTagged(key, value, tags) => TaggedAllEffect(s.db[key := Text(value)], tags, key);
    case InvalidateTag(tag) => InvalidateEffect(s.db, tag);
    case _ =>
  }

  lemma {:induction false} OverlapRunSound(os: seq<Overlap>, actions: seq<Action>, n: nat)
    requires IsOverlapRun(os, actions) && n <= |actions|
    ensures WellFormed(os[n].s.db) && PlainReads(os[n])
    ensures Undisturbed(os, actions, n) ==> Indexed(os[n].s)
  {
    hide WellFormed, Act;
    if n == 0 {
      assert WellFormed(map[]) by { EmptyWellFormed(); }
    } else {
      OverlapRunSound(os, actions, n - 1);
      ActSound(os[n - 1], actions[n - 1]);
      if Undisturbed(os, actions, n) {
        assert Undisturbed(os, actions, n - 1);
        ActIndexed(os[n - 1], actions[n - 1]);
      }
    }
  }

  lemma EmptyWellFormed()
    ensures WellFormed(map[])
  {
  }

  lemma ActIndexed(o: Overlap, a: Action)
    requires WellFormed(o.s.db) && Indexed(o.s) && PlainReads(o) && Able(o, a)
    requires a.DeleteMembers? ==> o.pending[a.c].keys == {} || UpToDate(o, a.c)
    ensures Indexed(Act(o, a).s)
  {
    hide WellFormed, Indexed, PlainReads, UpToDate;
    match a
    case Whole(e) => StepSound(o.s, e);
    case ReadMembers(c, tag) =>
    case DeleteMembers(c) => DeleteKeepsIndex(o, c);
  }

  /** Over every run of overlapping invalidations: a key whose latest tagged write carries the tag
      survives the invalidation if and only if it was not among the members read; if some were, it is
      then unlisted and the next invalidation of the tag leaves it, otherwise nothing was deleted and
      it is still listed, as long as nothing disturbed the index before. */
  lemma EscapesExactly(os: seq<Overlap>, actions: seq<Action>, i: nat, key: string)
    requires IsOverlapRun(os, actions) && i < |actions| && actions[i].DeleteMembers? && Able(os[i], actions[i])
    requires var tag := os[i].pending[actions[i].c].tag;
             Plain(key) && key in os[i].s.db && key in os[i].s.latest && tag in os[i].s.latest[key]
    ensures var (r, db) := (os[i].pending[actions[i].c], os[i + 1].s.db);
            && (key in db <==> key !in r.keys)
            && (key in db && r.keys != {} ==> key !in MembersOf(db, r.tag) && key in Invalidate(db, r.tag).0)
            && (key in db && r.keys == {} && Undisturbed(os, actions, i) ==> key in MembersOf(db, r.tag))
  {
    OverlapRunSound(os, actions, i);
    var r, db := os[i].pending[actions[i].c], os[i + 1].s.db;
    assert os[i + 1] == Act(os[i], actions[i]);
    DeleteEffect(os[i].s.db, r.tag, r.keys);
    InvalidateEffect(db, r.tag);
  }

  /** So as long as no write gets between the two commands with a key that was not listed, invalidation
      is complete, however the instances overlap otherwise: no key survives whose latest tagged write
      carried the tag. */
  lemma OverlappingInvalidationComplete(os: seq<Overlap>, actions: seq<Action>, i: nat, key: string)
    requires IsOverlapRun(os, actions) && i < |actions| && actions[i].DeleteMembers? && Able(os[i], actions[i])
    requires Plain(key) && UpToDate(os[i], actions[i].c)
    ensures var tag := os[i].pending[actions[i].c].tag;
            && (key in os[i + 1].s.latest ==> tag !in os[i + 1].s.latest[key])
            && (key in os[i].s.latest && tag in os[i].s.latest[key] ==> key !in os[i + 1].s.db)
  {
    OverlapRunSound(os, actions, i);
    var r := os[i].pending[actions[i].c];
    assert os[i + 1] == Act(os[i], actions[i]);
    DeleteEffect(os[i].s.db, r.tag, r.keys);
  }

  /** One tagged write between the two commands, on any database, for any key and tags: it survives if
      and only if the key was not among the members read, and is then still listed if and only if there
      were none. */
  lemma WriteBetweenEscapes(db: Db, key: string, value: string, tags: seq<string>, tag: string)
    requires WellFormed(db) && Plain(key) && tag in tags
    ensures var keys := MembersOf(db, tag);
            var after := DeleteRead(TaggedAll(db[key := Text(value)], tags, key), tag, keys).0;
            && (key in after <==> key !in keys)
            && (key in after ==> (key in MembersOf(after, tag) <==> keys == {}))
  {
    var written := db[key := Text(value)];
    MembersPlain(db, tag);
    TaggedAllEffect(written, tags, key);
    DeleteEffect(TaggedAll(written, tags, key), tag, MembersOf(db, tag));
  }
}
