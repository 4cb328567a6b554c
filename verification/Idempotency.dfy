/** Consumer-side deduplication: the printed position of a message is inserted into a table with a
    unique key, and the handler runs only when the insert added a row. */
module Idempotency {
  import opened Wrappers
  import opened Sequences
  import opened Strings
  import D = Dispatcher

  type Message = D.Message

  /** IdempotencyKey: "%s/%d/%d". */
  function Key(m: Message): string {
    m.topic + "/" + Itoa(m.partition) + "/" + Itoa(m.offset)
  }

  /** The position of a message in Kafka. */
  function Position(m: Message): (string, int, int) {
    (m.topic, m.partition, m.offset)
  }

  lemma ItoaNoSlash(n: int)
    ensures '/' !in Itoa(n)
  {
    ItoaPlain(n);
  }

  function LastSlashAt(s: string): int {
    if s == "" then -1
    else if s[|s| - 1] == '/' then |s| - 1
    else LastSlashAt(s[..|s| - 1])
  }

  lemma {:induction false} LastSlashFound(a: string, x: string)
    requires '/' !in x
    ensures LastSlashAt(a + "/" + x) == |a|
  {
    var s := a + "/" + x;
    if x != "" {
      assert s[..|s| - 1] == a + "/" + x[..|x| - 1];
      LastSlashFound(a, x[..|x| - 1]);
    }
  }

  /** The last slash of a text is where it is cut, whatever stands before it. */
  lemma LastSlash(a: string, x: string, b: string, y: string)
    requires a + "/" + x == b + "/" + y && '/' !in x && '/' !in y
    ensures a == b && x == y
  {
    LastSlashFound(a, x);
    LastSlashFound(b, y);
    var s := a + "/" + x;
    assert a == s[..|a|] && b == s[..|b|];
    assert x == s[|a| + 1..] && y == s[|b| + 1..];
  }

  /** The key identifies the position for every topic, slashes included, and every partition and
      offset, negative ones included. */
  lemma KeyInjective(m: Message, n: Message)
    ensures Key(m) == Key(n) <==> Position(m) == Position(n)
  {
    if Key(m) == Key(n) {
      hide Itoa;
      ItoaNoSlash(m.partition);
      ItoaNoSlash(n.partition);
      ItoaNoSlash(m.offset);
      ItoaNoSlash(n.offset);
      LastSlash(m.topic + "/" + Itoa(m.partition), Itoa(m.offset), n.topic + "/" + Itoa(n.partition), Itoa(n.offset));
      LastSlash(m.topic, Itoa(m.partition), n.topic, Itoa(n.partition));
      ItoaInjective(m.offset, n.offset);
      ItoaInjective(m.partition, n.partition);
    }
  }

  /** The printed key of a position. */
  lemma KeyText(m: Message)
    requires m.topic == "order.order.created" && m.partition == 3 && m.offset == 42
    ensures Key(m) == "order.order.created/3/42"
  {
    Numeral(3);
    Numeral(4);
    Numeral(2);
    assert Digits(42) == Digits(4) + [Digit(2)];
    assert Itoa(3) == "3" && Itoa(42) == "42";
  }

  // ---------- one message at a time ----------

  datatype Outcome = DbError | Skipped | Handled

  class ProcessedEvents {
    var keys: set<string>

    constructor ()
      ensures keys == {}
    {
      keys := {};
    }

    /** INSERT ... ON CONFLICT DO NOTHING of one row; the number of rows added, or an error. */
    method Insert(key: string, net: Net) returns (rows: Option<nat>)
      modifies this
      ensures rows == if net.Up? then Some(if key in old(keys) then 0 else 1) else None
      ensures keys == if net.Effective() then old(keys) + {key} else old(keys)
    {
      if net.Down? {
        return None;
      }
      rows := Some(if key in keys then 0 else 1);
      keys := keys + {key};
      if net.ReplyLost? {
        rows := None;
      }
    }

    /** The same for many rows in one statement; says of each row whether it was added. */
    method InsertAll(rows: seq<string>, net: Net) returns (added: Option<seq<bool>>)
      modifies this
      ensures keys == old(keys) + if net.Effective() then set k | k in rows else {}
      ensures added.Some? <==> net.Up?
      ensures net.Up? ==> AddedFlags(rows, old(keys), added.value)
    {
      if net.Down? {
        return None;
      }
      var flags := [];
      var i := 0;
      while i < |rows|
        invariant 0 <= i <= |rows| && |flags| == i
        invariant keys == old(keys) + set k | k in rows[..i]
        invariant forall j :: 0 <= j < i ==> (flags[j] <==> rows[j] !in old(keys) && rows[j] !in rows[..j])
      {
        flags := flags + [rows[i] !in keys];
        keys := keys + {rows[i]};
        assert rows[..i + 1] == rows[..i] + [rows[i]];
        i := i + 1;
      }
      assert rows[..i] == rows;
      added := if net.Up? then Some(flags) else None;
    }

    /** IdempotentHandler around one message. */
    method Handle(m: Message, net: Net) returns (outcome: Outcome)
      modifies this
      ensures (keys, outcome) == Deliver(old(keys), m, net)
    {
      var rows := Insert(Key(m), net);
      if rows == None {
        return DbError;
      }
      if rows.value == 0 {
        assert keys == old(keys);
        return Skipped;
      }
      outcome := Handled;
    }

    /** IdempotentBatchHandler around one batch: what it hands to the inner handler, if it calls it. */
    method HandleBatch(msgs: seq<Message>, net: Net, requeryUp: bool) returns (passed: Option<seq<Message>>)
      modifies this
      ensures keys == old(keys) + if net.Effective() then KeysOf(msgs) else {}
      ensures passed == DeliverBatch(old(keys), msgs, net, requeryUp)
    {
      if |msgs| == 0 {
        return None;
      }
      var rows := BuildKeys(msgs);
      assert KeysOf(msgs) == set k | k in rows;
      assert AllFresh(msgs, old(keys)) <==> AllNew(rows, old(keys));
      var added := InsertAll(rows, net);
      if added == None {
        return None;
      }
      var count := CountTrue(added.value);
      AllAdded(rows, old(keys), added.value);
      if count == |msgs| {
        FilterAll(msgs, NotIn(old(keys)));
        return Some(msgs);
      }
      if !requeryUp {
        return None;
      }
      var inserted := CollectInserted(rows, added.value);
      InsertedExactly(rows, old(keys), added.value, inserted);
      var newMsgs := KeepInserted(msgs, inserted);
      KeptAreNew(msgs, rows, old(keys), inserted);
      if |newMsgs| == 0 {
        return None;
      }
      passed := Some(newMsgs);
    }
  }

  /** The keys of the rows that were added. */
  method CollectInserted(rows: seq<string>, added: seq<bool>) returns (inserted: set<string>)
    requires |added| == |rows|
    ensures inserted == set j | 0 <= j < |rows| && added[j] :: rows[j]
  {
    inserted := {};
    var i := 0;
    while i < |rows|
      invariant 0 <= i <= |rows|
      invariant inserted == set j | 0 <= j < i && added[j] :: rows[j]
    {
      if added[i] {
        inserted := inserted + {rows[i]};
      }
      i := i + 1;
    }
  }

  function KeyIn(keys: set<string>): Message -> bool {
    (m: Message) => Key(m) in keys
  }

  lemma NoneKept(inserted: set<string>)
    ensures Filter([], KeyIn(inserted)) == []
  {
  }

  lemma OneMoreKept(msgs: seq<Message>, i: nat, inserted: set<string>)
    requires i < |msgs|
    ensures Filter(msgs[..i + 1], KeyIn(inserted))
            == Filter(msgs[..i], KeyIn(inserted)) + if Key(msgs[i]) in inserted then [msgs[i]] else []
  {
    hide Key, Filter;
    FilterSnoc(msgs[..i], msgs[i], KeyIn(inserted));
    assert msgs[..i + 1] == msgs[..i] + [msgs[i]];
  }

  method KeepInserted(msgs: seq<Message>, inserted: set<string>) returns (kept: seq<Message>)
    ensures kept == Filter(msgs, KeyIn(inserted))
  {
    hide Key, Filter;
    kept := [];
    var i := 0;
    NoneKept(inserted);
    assert msgs[..0] == [];
    while i < |msgs|
      invariant 0 <= i <= |msgs|
      invariant kept == Filter(msgs[..i], KeyIn(inserted))
    {
      OneMoreKept(msgs, i, inserted);
      if Key(msgs[i]) in inserted {
        kept := kept + [msgs[i]];
      }
      i := i + 1;
    }
    assert msgs[..i] == msgs;
  }

  lemma KeptAreNew(msgs: seq<Message>, rows: seq<string>, seen: set<string>, inserted: set<string>)
    requires |rows| == |msgs| && forall i :: 0 <= i < |msgs| ==> rows[i] == Key(msgs[i])
    requires forall i :: 0 <= i < |rows| ==> (rows[i] in inserted <==> rows[i] !in seen)
    ensures Filter(msgs, KeyIn(inserted)) == Filter(msgs, NotIn(seen))
  {
    FilterSame(msgs, KeyIn(inserted), NotIn(seen));
  }

  method BuildKeys(msgs: seq<Message>) returns (rows: seq<string>)
    ensures |rows| == |msgs| && forall i :: 0 <= i < |msgs| ==> rows[i] == Key(msgs[i])
  {
    hide Key;
    rows := [];
    var i := 0;
    while i < |msgs|
      invariant 0 <= i <= |msgs| && |rows| == i
      invariant forall j :: 0 <= j < i ==> rows[j] == Key(msgs[j])
    {
      rows := rows + [Key(msgs[i])];
      i := i + 1;
    }
  }

  function CountTrue(flags: seq<bool>): (n: nat)
    ensures n <= |flags|
    ensures n == |flags| <==> forall i :: 0 <= i < |flags| ==> flags[i]
  {
    if flags == [] then 0 else CountTrue(flags[..|flags| - 1]) + if flags[|flags| - 1] then 1 else 0
  }

  ghost predicate AddedFlags(rows: seq<string>, seen: set<string>, added: seq<bool>) {
    && |added| == |rows|
    && forall i :: 0 <= i < |rows| ==> (added[i] <==> rows[i] !in seen && rows[i] !in rows[..i])
  }

  ghost predicate AllNew(rows: seq<string>, seen: set<string>) {
    && (forall i :: 0 <= i < |rows| ==> rows[i] !in seen)
    && forall i, j :: 0 <= i < j < |rows| ==> rows[i] != rows[j]
  }

  lemma AllAdded(rows: seq<string>, seen: set<string>, added: seq<bool>)
    requires AddedFlags(rows, seen, added)
    ensures CountTrue(added) == |rows| <==> AllNew(rows, seen)
  {
    if CountTrue(added) == |rows| {
      forall i, j | 0 <= i < j < |rows|
        ensures rows[i] != rows[j]
      {
        assert added[j] && rows[..j][i] == rows[i];
      }
    }
  }

  /** The inserted keys of a batch are its keys that were not in the table before. */
  lemma {:induction false} InsertedExactly(rows: seq<string>, seen: set<string>, added: seq<bool>, inserted: set<string>)
    requires AddedFlags(rows, seen, added)
    requires inserted == set j | 0 <= j < |rows| && added[j] :: rows[j]
    ensures forall i :: 0 <= i < |rows| ==> (rows[i] in inserted <==> rows[i] !in seen)
  {
    forall i | 0 <= i < |rows| && rows[i] !in seen
      ensures rows[i] in inserted
    {
      var j := FirstAt(rows, i);
      assert added[j];
    }
  }

  lemma {:induction false} FirstAt(rows: seq<string>, i: nat) returns (j: nat)
    requires i < |rows|
    ensures j <= i && rows[j] == rows[i] && rows[j] !in rows[..j]
  {
    j := i;
    if rows[i] in rows[..i] {
      var k :| 0 <= k < i && rows[k] == rows[i];
      j := FirstAt(rows, k);
    }
  }

  // ---------- what a delivery does ----------

  function Deliver(seen: set<string>, m: Message, net: Net): (set<string>, Outcome) {
    if net.Down? then (seen, DbError)
    else if net.ReplyLost? then (seen + {Key(m)}, DbError)
    else if Key(m) in seen then (seen, Skipped)
    else (seen + {Key(m)}, Handled)
  }

  function KeysOf(msgs: seq<Message>): set<string> {
    set m | m in msgs :: Key(m)
  }

  function NotIn(seen: set<string>): Message -> bool {
    (m: Message) => Key(m) !in seen
  }

  ghost predicate AllFresh(msgs: seq<Message>, seen: set<string>) {
    && (forall i :: 0 <= i < |msgs| ==> Key(msgs[i]) !in seen)
    && forall i, j :: 0 <= i < j < |msgs| ==> Key(msgs[i]) != Key(msgs[j])
  }

  /** What the inner batch handler gets: nothing on a database error, otherwise the messages whose
      keys were new, in their order; it is not called with an empty batch.  The second query is made
      only when some row was not added. */
  ghost function DeliverBatch(seen: set<string>, msgs: seq<Message>, net: Net, requeryUp: bool): Option<seq<Message>> {
    if !net.Up? || (!requeryUp && !AllFresh(msgs, seen)) then None
    else
      var unseen := Filter(msgs, NotIn(seen));
      if unseen == [] then None else Some(unseen)
  }

  // ---------- redeliveries of single messages ----------

  datatype Delivery = Delivery(msg: Message, net: Net)

  /** The table between the deliveries. */
  ghost predicate IsRun(tables: seq<set<string>>, ds: seq<Delivery>) {
    && |tables| == |ds| + 1
    && tables[0] == {}
    && forall i: nat :: i < |ds| ==> tables[i + 1] == Deliver(tables[i], ds[i].msg, ds[i].net).0
  }

  lemma {:induction false} TableExact(tables: seq<set<string>>, ds: seq<Delivery>, n: nat, key: string)
    requires IsRun(tables, ds) && n <= |ds|
    ensures key in tables[n] <==> exists j: nat :: j < n && ds[j].net.Effective() && Key(ds[j].msg) == key
  {
    hide Key;
    if n > 0 {
      TableExact(tables, ds, n - 1, key);
    }
  }

  ghost predicate HandledAt(tables: seq<set<string>>, ds: seq<Delivery>, i: nat)
    requires i < |ds| && i < |tables|
  {
    Deliver(tables[i], ds[i].msg, ds[i].net).1 == Handled
  }

  /** Over any redelivery sequence the handler is called for a delivery exactly when its insert is
      answered and no earlier insert of the same position took effect. */
  lemma HandledExactlyFirst(tables: seq<set<string>>, ds: seq<Delivery>, i: nat)
    requires IsRun(tables, ds) && i < |ds|
    ensures HandledAt(tables, ds, i)
            <==> ds[i].net.Up? && forall j: nat :: j < i && ds[j].net.Effective() ==> Position(ds[j].msg) != Position(ds[i].msg)
  {
    TableExact(tables, ds, i, Key(ds[i].msg));
    forall j: nat | j < i
      ensures Key(ds[j].msg) == Key(ds[i].msg) <==> Position(ds[j].msg) == Position(ds[i].msg)
    {
      KeyInjective(ds[j].msg, ds[i].msg);
    }
    hide Key;
  }

  /** So a position is handled at most once, lost replies or not; and if its first insert that took
      effect was delivery i, it is ever handled exactly if the answer to that one arrived. */
  lemma HandledAtMostOnce(tables: seq<set<string>>, ds: seq<Delivery>, i: nat, j: nat)
    requires IsRun(tables, ds) && i < |ds| && j < |ds| && Position(ds[i].msg) == Position(ds[j].msg)
    ensures HandledAt(tables, ds, i) && HandledAt(tables, ds, j) ==> i == j
    ensures ds[i].net.Effective()
            && (forall k: nat :: k < i && ds[k].net.Effective() ==> Position(ds[k].msg) != Position(ds[i].msg)) ==>
              (HandledAt(tables, ds, i) <==> ds[i].net.Up?) && (HandledAt(tables, ds, j) ==> i == j)
  {
    HandledExactlyFirst(tables, ds, i);
    HandledExactlyFirst(tables, ds, j);
    hide HandledAt;
  }

  // ---------- redeliveries of batches ----------

  datatype BatchDelivery = BatchDelivery(msgs: seq<Message>, net: Net, requeryUp: bool)

  ghost predicate IsBatchRun(tables: seq<set<string>>, ds: seq<BatchDelivery>) {
    && |tables| == |ds| + 1
    && tables[0] == {}
    && forall i: nat :: i < |ds| ==> tables[i + 1] == tables[i] + if ds[i].net.Effective() then KeysOf(ds[i].msgs) else {}
  }

  /** What delivery i hands to the inner handler. */
  ghost function Passed(tables: seq<set<string>>, ds: seq<BatchDelivery>, i: nat): seq<Message>
    requires i < |tables| && i < |ds|
  {
    match DeliverBatch(tables[i], ds[i].msgs, ds[i].net, ds[i].requeryUp)
    case None => []
    case Some(msgs) => msgs
  }

  ghost predicate Delivered(ds: seq<BatchDelivery>, n: nat, key: string)
    requires n <= |ds|
  {
    exists j: nat :: j < n && ds[j].net.Effective() && key in KeysOf(ds[j].msgs)
  }

  lemma {:induction false} BatchTableExact(tables: seq<set<string>>, ds: seq<BatchDelivery>, n: nat, key: string)
    requires IsBatchRun(tables, ds) && n <= |ds|
    ensures key in tables[n] <==> Delivered(ds, n, key)
  {
    hide KeysOf;
    if n > 0 {
      BatchTableExact(tables, ds, n - 1, key);
      assert tables[n] == tables[n - 1] + if ds[n - 1].net.Effective() then KeysOf(ds[n - 1].msgs) else {};
    }
  }

  lemma {:induction false} FilterKeeps<T>(s: seq<T>, p: T -> bool, x: T)
    ensures x in Filter(s, p) <==> x in s && p(x)
  {
    if s != [] {
      FilterKeeps(s[..|s| - 1], p, x);
    }
  }

  /** The condition under which a delivery gets past its database calls: the insert is answered, and
      the second query, made unless all keys are new and distinct, succeeds. */
  ghost predicate GetsThrough(tables: seq<set<string>>, ds: seq<BatchDelivery>, i: nat)
    requires i < |tables| && i < |ds|
  {
    ds[i].net.Up? && (ds[i].requeryUp || AllFresh(ds[i].msgs, tables[i]))
  }

  /** A delivery hands on all its unseen messages, in their original order, if and only if it gets
      through or has none. */
  lemma PassedExactly(tables: seq<set<string>>, ds: seq<BatchDelivery>, i: nat)
    requires IsBatchRun(tables, ds) && i < |ds|
    ensures Passed(tables, ds, i) == Filter(ds[i].msgs, NotIn(tables[i]))
            <==> GetsThrough(tables, ds, i) || forall m :: m in ds[i].msgs ==> Key(m) in tables[i]
    ensures forall m :: m in ds[i].msgs ==>
              (m in Passed(tables, ds, i) <==> GetsThrough(tables, ds, i) && !Delivered(ds, i, Key(m)))
  {
    var unseen := Filter(ds[i].msgs, NotIn(tables[i]));
    forall m | m in ds[i].msgs
      ensures m in unseen <==> Key(m) !in tables[i]
      ensures Key(m) in tables[i] <==> Delivered(ds, i, Key(m))
    {
      BatchTableExact(tables, ds, i, Key(m));
      FilterKeeps(ds[i].msgs, NotIn(tables[i]), m);
    }
    hide Key, AllFresh, Filter, KeysOf;
    if unseen != [] {
      assert unseen[0] in unseen;
    }
  }

  /** No position is handed to the inner handler by two deliveries. */
  lemma NeverPassedTwice(tables: seq<set<string>>, ds: seq<BatchDelivery>, i: nat, j: nat, m: Message, n: Message)
    requires IsBatchRun(tables, ds) && i < j < |ds|
    requires m in Passed(tables, ds, i) && n in Passed(tables, ds, j)
    ensures Position(m) != Position(n)
  {
    KeyInjective(m, n);
    BatchTableExact(tables, ds, j, Key(n));
    hide Key;
    assert Key(m) in KeysOf(ds[i].msgs);
    assert Delivered(ds, j, Key(m));
  }

  /** A position is handed on by some delivery of the run. */
  ghost predicate EverPassed(tables: seq<set<string>>, ds: seq<BatchDelivery>, m: Message)
    requires |tables| == |ds| + 1
  {
    exists j: nat, x :: j < |ds| && x in Passed(tables, ds, j) && Position(x) == Position(m)
  }

  lemma PassedWhere(tables: seq<set<string>>, ds: seq<BatchDelivery>, i: nat, j: nat, m: Message, x: Message)
    requires IsBatchRun(tables, ds) && i < |ds| && j < |ds| && ds[i].net.Effective()
    requires m in ds[i].msgs && !Delivered(ds, i, Key(m))
    requires x in Passed(tables, ds, j) && Position(x) == Position(m)
    ensures j == i && GetsThrough(tables, ds, i)
  {
    KeyInjective(x, m);
    BatchTableExact(tables, ds, j, Key(x));
    hide Key, KeyIn;
    assert Key(m) in KeysOf(ds[i].msgs) && Key(x) in KeysOf(ds[j].msgs);
  }

  /** When a message is lost: if delivery i is the first of its position whose insert takes effect, no
      delivery of the run, however often it is repeated, hands the position on, if and only if that one
      did not get through. */
  lemma LostExactly(tables: seq<set<string>>, ds: seq<BatchDelivery>, i: nat, m: Message)
    requires IsBatchRun(tables, ds) && i < |ds| && ds[i].net.Effective()
    requires m in ds[i].msgs && !Delivered(ds, i, Key(m))
    ensures !EverPassed(tables, ds, m) <==> !GetsThrough(tables, ds, i)
  {
    hide Key, GetsThrough, Passed, Delivered;
    PassedExactly(tables, ds, i);
    assert GetsThrough(tables, ds, i) ==> m in Passed(tables, ds, i) && Position(m) == Position(m);
    forall j: nat, x | j < |ds| && x in Passed(tables, ds, j) && Position(x) == Position(m)
      ensures GetsThrough(tables, ds, i)
    {
      PassedWhere(tables, ds, i, j, m, x);
    }
  }

  /** A failing second query loses messages: their keys stay recorded, the handler never sees them. */
  lemma RequeryFailureLoses(m: Message, n: Message)
    requires Position(m) != Position(n)
    ensures var ds := [BatchDelivery([m], Up, true), BatchDelivery([m, n], Up, false), BatchDelivery([n], Up, true)];
            exists tables :: IsBatchRun(tables, ds) && !EverPassed(tables, ds, n)
  {
    KeyInjective(m, n);
    var ds := [BatchDelivery([m], Up, true), BatchDelivery([m, n], Up, false), BatchDelivery([n], Up, true)];
    var t1, t2 := KeysOf([m]), KeysOf([m]) + KeysOf([m, n]);
    var tables := [{}, t1, t2, t2 + KeysOf([n])];
    hide Key;
    assert [m, n][0] == m && [m, n][1] == n;
    assert Key(m) in t1 && !AllFresh([m, n], t1);
    assert IsBatchRun(tables, ds);
    assert !Delivered(ds, 1, Key(n)) by {
      assert KeysOf([m]) == {Key(m)};
    }
    LostExactly(tables, ds, 1, n);
  }
}
