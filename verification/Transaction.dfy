/** Database transactions with a function body that may fail or panic, and the creation of an order
    with its outbox row inside one. */
module Transaction {
  import opened Wrappers
  import opened Strings
  import T = Topics
  import O = Outbox

  /** How the function run inside a transaction ends, and what it has staged by then. */
  datatype Body<S, A> = Done(staged: S, value: A) | Failed(staged: S) | Panicked(staged: S)

  datatype Outcome<A> = Ok(value: A) | Error | Panic

  /** WithTransactionResult: the database afterwards, and what the caller gets. */
  function WithTransactionResult<S, A>(db: S, beginUp: bool, body: S -> Body<S, A>, commit: Net): (S, Outcome<A>) {
    if !beginUp then (db, Error)
    else
      match body(db)
      case Panicked(_) => (db, Panic)
      case Failed(_) => (db, Error)
      case Done(staged, value) =>
        (if commit.Effective() then staged else db, if commit.Up? then Ok(value) else Error)
  }

  /** All or nothing, for every body and every fault: the database holds everything the body staged
      or is untouched; success means the former, and an error or a panic the latter unless only the
      reply to the commit was lost. */
  lemma AllOrNothing<S, A>(db: S, beginUp: bool, body: S -> Body<S, A>, commit: Net)
    ensures var (after, outcome) := WithTransactionResult(db, beginUp, body, commit);
            && (after == db || (body(db).Done? && after == body(db).staged))
            && (outcome.Ok? ==> body(db).Done? && after == body(db).staged && outcome.value == body(db).value)
            && (!outcome.Ok? && commit != ReplyLost ==> after == db)
            && (outcome.Panic? <==> beginUp && body(db).Panicked?)
  {
  }

  /** A database session: what is committed, and the view of the open transaction. */
  class Session<S> {
    var committed: S
    var open: Option<S>

    constructor (db: S)
      ensures committed == db && open == None
    {
      committed, open := db, None;
    }

    method Begin(up: bool)
      requires open == None
      modifies this`open
      ensures open == if up then Some(committed) else None
    {
      if up {
        open := Some(committed);
      }
    }

    /** Statements inside the transaction. */
    method Write(view: S)
      requires open.Some?
      modifies this`open
      ensures open == Some(view)
    {
      open := Some(view);
    }

    /** A rollback that does not get through leaves the transaction open. */
    method Rollback(net: Net)
      requires open.Some?
      modifies this`open
      ensures open == if net.Effective() then None else old(open)
    {
      if net.Effective() {
        open := None;
      }
    }

    /** A refused commit ends the transaction without effect. */
    method Commit(net: Net)
      requires open.Some?
      modifies this
      ensures open == None
      ensures committed == if net.Effective() then old(open).value else old(committed)
    {
      if net.Effective() {
        committed := open.value;
      }
      open := None;
    }

    /** Begin, run, then commit, or roll back after an error or a panic, which is raised again.  A
        failing rollback is only logged: the transaction stays open, but nothing of it is committed. */
    method WithTransaction<A>(body: S -> Body<S, A>, beginUp: bool, commit: Net, rollback: Net) returns (outcome: Outcome<A>)
      requires open == None
      modifies this
      ensures (committed, outcome) == WithTransactionResult(old(committed), beginUp, body, commit)
      ensures open == if beginUp && !body(old(committed)).Done? && rollback.Down? then Some(body(old(committed)).staged) else None
    {
      Begin(beginUp);
      if open == None {
        return Error;
      }
      var end := body(open.value);
      Write(end.staged);
      if end.Panicked? {
        Rollback(rollback);
        return Panic;
      }
      if end.Failed? {
        Rollback(rollback);
        return Error;
      }
      Commit(commit);
      outcome := if commit.Up? then Ok(end.value) else Error;
    }
  }

  // ---------- many transactions ----------

  datatype Tx<!S, A> = Tx(beginUp: bool, body: S -> Body<S, A>, commit: Net)

  function After<S, A>(db: S, txs: seq<Tx<S, A>>): S {
    if txs == [] then db
    else
      var tx := txs[|txs| - 1];
      WithTransactionResult(After(db, txs[..|txs| - 1]), tx.beginUp, tx.body, tx.commit).0
  }

  /** The transactions whose body ended well and whose commit took effect. */
  function Kept<S, A>(db: S, txs: seq<Tx<S, A>>): seq<Tx<S, A>> {
    if txs == [] then []
    else
      var (init, tx) := (txs[..|txs| - 1], txs[|txs| - 1]);
      Kept(db, init) + if tx.beginUp && tx.body(After(db, init)).Done? && tx.commit.Effective() then [tx] else []
  }

  /** Their bodies, run one after the other on a database where nothing fails. */
  function Replay<S, A>(db: S, txs: seq<Tx<S, A>>): S {
    if txs == [] then db else txs[|txs| - 1].body(Replay(db, txs[..|txs| - 1])).staged
  }

  /** Transactions that failed, panicked or were refused leave no trace: any sequence of transactions
      leaves the database as the bodies of those that were kept would alone. */
  lemma {:induction false} FailuresLeaveNoTrace<S, A>(db: S, txs: seq<Tx<S, A>>)
    ensures After(db, txs) == Replay(db, Kept(db, txs))
  {
    if txs != [] {
      var (init, tx) := (txs[..|txs| - 1], txs[|txs| - 1]);
      FailuresLeaveNoTrace(db, init);
      var kept := Kept(db, init);
      assert (kept + [tx])[..|kept + [tx]| - 1] == kept;
      if tx.beginUp && tx.body(After(db, init)).Done? && tx.commit.Effective() {
        assert Kept(db, txs) == kept + [tx];
        assert After(db, txs) == tx.body(After(db, init)).staged;
      } else {
        assert Kept(db, txs) == kept;
        assert After(db, txs) == After(db, init);
      }
    }
  }

  // ---------- creating an order ----------

  datatype Tables = Tables(orders: map<nat, O.Order>, rows: O.Rows)

  datatype Step = Fine | Fails | Panics

  /** What goes wrong, step by step. */
  datatype Script = Script(beginUp: bool, repo: Step, marshal: Step, insert: Step, commit: Net)

  /** The row WriteOutbox inserts for a created order. */
  function EventRow(order: O.Order, id: nat): O.Row {
    O.NewRow(id, O.TOPIC_ORDER_CREATED, Itoa(order.id), O.OrderCreated(order), map[])
  }

  /** The transaction body of Create. */
  function CreateBody(topics: map<string, T.Meta>, order: O.Order, id: nat, script: Script): Tables -> Body<Tables, O.Order> {
    (t: Tables) =>
      var t1 := Tables(t.orders[order.id := order], t.rows);
      if script.repo == Panics then Panicked(t)
      else if script.repo == Fails || order.id in t.orders then Failed(t)
      else if script.marshal == Panics then Panicked(t1)
      else if script.marshal == Fails then Failed(t1)
      else if T.Validate(topics, O.TOPIC_ORDER_CREATED, Itoa(order.id)) != None then Failed(t1)
      else if script.insert == Panics then Panicked(t1)
      else if script.insert == Fails then Failed(t1)
      else Done(Tables(t1.orders, t.rows[id := EventRow(order, id)]), order)
  }

  function Creation(t: Tables, topics: map<string, T.Meta>, order: O.Order, id: nat, script: Script): (Tables, Outcome<O.Order>) {
    WithTransactionResult(t, script.beginUp, CreateBody(topics, order, id, script), script.commit)
  }

  datatype Item = Item(quantity: int, unitPrice: real)

  function Total(items: seq<Item>): real {
    if items == [] then 0.0
    else Total(items[..|items| - 1]) + items[|items| - 1].unitPrice * (items[|items| - 1].quantity as real)
  }

  lemma TotalOne(x: Item)
    ensures Total([x]) == x.unitPrice * (x.quantity as real)
  {
    assert [x][..0] == [];
  }

  lemma {:induction false} TotalAppend(a: seq<Item>, b: seq<Item>)
    ensures Total(a + b) == Total(a) + Total(b)
  {
    if b == [] {
      assert a + b == a;
    } else {
      var n := |b| - 1;
      assert (a + b)[..|a + b| - 1] == a + b[..n];
      TotalAppend(a, b[..n]);
    }
  }

  lemma TotalMoved(x: Item, left: seq<Item>, right: seq<Item>)
    ensures Total(left + ([x] + right)) == Total([x]) + Total(left + right)
  {
    hide Total;
    TotalAppend(left, [x] + right);
    TotalAppend([x], right);
    TotalAppend(left, right);
  }

  /** The order of the items does not matter. */
  lemma {:induction false} TotalOfAnyOrder(a: seq<Item>, b: seq<Item>)
    requires multiset(a) == multiset(b)
    ensures Total(a) == Total(b)
    decreases |a|
  {
    if a == [] {
      assert |b| == |multiset(b)| == 0;
    } else {
      hide Total;
      var x, rest := a[0], a[1..];
      assert a == [x] + rest;
      var left, right := Without(b, x, rest);
      TotalOfAnyOrder(rest, left + right);
      TotalAppend([x], rest);
      TotalMoved(x, left, right);
    }
  }

  /** Where x stands in b, and what is left when it goes. */
  lemma Without(b: seq<Item>, x: Item, rest: seq<Item>) returns (left: seq<Item>, right: seq<Item>)
    requires multiset([x] + rest) == multiset(b)
    ensures b == left + ([x] + right) && multiset(rest) == multiset(left + right)
  {
    assert multiset([x] + rest) == multiset{x} + multiset(rest);
    assert x in multiset(b);
    var i :| 0 <= i < |b| && b[i] == x;
    left, right := b[..i], b[i + 1..];
    assert b == left + ([x] + right);
    assert multiset(b) == multiset(left) + (multiset{x} + multiset(right));
    assert multiset(left + right) == multiset(left) + multiset(right);
    assert multiset(rest) == multiset([x] + rest) - multiset{x};
    assert multiset(left + right) == multiset(b) - multiset{x};
  }

  // ---------- the total, unit by unit ----------

  function Sum(prices: seq<real>): real {
    if prices == [] then 0.0 else prices[0] + Sum(prices[1..])
  }

  /** The price of every single unit of the items. */
  function Units(items: seq<Item>): seq<real>
    requires forall i :: 0 <= i < |items| ==> items[i].quantity >= 0
  {
    if items == [] then [] else Copies(items[0].unitPrice, items[0].quantity) + Units(items[1..])
  }

  lemma {:induction false} SumAppend(a: seq<real>, b: seq<real>)
    ensures Sum(a + b) == Sum(a) + Sum(b)
  {
    if a == [] {
      assert a + b == b;
    } else {
      assert (a + b)[1..] == a[1..] + b;
      SumAppend(a[1..], b);
    }
  }

  lemma {:induction false} SumOfEqual(prices: seq<real>, p: real)
    requires forall i :: 0 <= i < |prices| ==> prices[i] == p
    ensures Sum(prices) == p * (|prices| as real)
  {
    if prices != [] {
      SumOfEqual(prices[1..], p);
    }
  }

  function Copies(p: real, n: nat): (prices: seq<real>)
    ensures |prices| == n && forall i :: 0 <= i < n ==> prices[i] == p
  {
    seq(n, _ => p)
  }

  lemma UnitsOfOne(x: Item)
    requires x.quantity >= 0
    ensures Total([x]) == Sum(Copies(x.unitPrice, x.quantity))
  {
    TotalOne(x);
    SumOfEqual(Copies(x.unitPrice, x.quantity), x.unitPrice);
  }

  /** Priced by the item or by the single unit, an order costs the same. */
  lemma {:induction false} TotalOfUnits(items: seq<Item>)
    requires forall i :: 0 <= i < |items| ==> items[i].quantity >= 0
    ensures Total(items) == Sum(Units(items))
  {
    if items != [] {
      hide Total, Sum;
      var x, rest := items[0], items[1..];
      assert items == [x] + rest;
      TotalAppend([x], rest);
      UnitsOfOne(x);
      TotalOfUnits(rest);
      SumAppend(Copies(x.unitPrice, x.quantity), Units(rest));
    }
  }

  /** The loop that prices an order. */
  method Price(items: seq<Item>) returns (total: real)
    ensures total == Total(items)
    ensures (forall i :: 0 <= i < |items| ==> items[i].quantity >= 0) ==> total == Sum(Units(items))
  {
    total := 0.0;
    var i := 0;
    while i < |items|
      invariant 0 <= i <= |items|
      invariant total == Total(items[..i])
    {
      assert items[..i + 1][..i] == items[..i];
      total := total + items[i].unitPrice * (items[i].quantity as real);
      i := i + 1;
    }
    assert items[..i] == items;
    if forall k :: 0 <= k < |items| ==> items[k].quantity >= 0 {
      TotalOfUnits(items);
    }
  }

  class OrderService {
    const db: O.Database

    constructor (db: O.Database)
      ensures this.db == db
    {
      this.db := db;
    }

    /** Create: prices the order, then inserts order and event in one transaction.  `id` is a fresh
        UUID.  The sequence that numbers outbox rows is not rolled back. */
    method Create(id: nat, user: nat, currency: string, items: seq<Item>, script: Script) returns (outcome: Outcome<O.Order>)
      requires db.Valid()
      modifies db
      ensures db.Valid() && db.topics == old(db.topics) && db.nextId >= old(db.nextId)
      ensures var order := O.Order(id, user, Total(items), currency, |items|);
              (Tables(db.orders, db.rows), outcome)
              == Creation(Tables(old(db.orders), old(db.rows)), db.topics, order, old(db.nextId), script)
      ensures outcome.Ok? ==>
                var order := outcome.value;
                && order.id == id && order.user == user && order.currency == currency && order.itemCount == |items|
                && ((forall i :: 0 <= i < |items| ==> items[i].quantity >= 0) ==> order.total == Sum(Units(items)))
                && db.orders == old(db.orders)[id := order]
                && db.rows == old(db.rows)[old(db.nextId) := O.Row(old(db.nextId), "order.order.created", Itoa(id), O.OrderCreated(order),
                                                                   O.NoHeaders, O.Pending, 0, None)]
    {
      hide Sum, Units, Total, Itoa;
      var total := Price(items);
      var order := O.Order(id, user, total, currency, |items|);

      if !script.beginUp {
        return Error;
      }
      // the transaction's own view of the tables; rolling back drops it
      var orders, rows := db.orders, db.rows;
      if script.repo == Panics {
        return Panic;
      }
      if script.repo == Fails || id in orders {
        return Error;
      }
      orders := orders[id := order];
      if script.marshal == Panics {
        return Panic;
      }
      if script.marshal == Fails {
        return Error;
      }
      if T.Validate(db.topics, O.TOPIC_ORDER_CREATED, Itoa(id)) != None {
        return Error;
      }
      var rowId := db.nextId;
      db.nextId := db.nextId + 1;
      if script.insert == Panics {
        return Panic;
      }
      if script.insert == Fails {
        return Error;
      }
      rows := rows[rowId := EventRow(order, rowId)];
      if script.commit.Effective() {
        db.orders, db.rows := orders, rows;
      }
      outcome := if script.commit.Up? then Ok(order) else Error;
    }
  }
}
