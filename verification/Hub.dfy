/** The WebSocket hub: the index of registered clients, the index of rooms, and each client's own
    list of rooms, changed under one lock; broadcasts send on the clients' channels under it. */
module Hub {
  /** The capacity of a client's send channel. */
  const BUFFER := 256

  class Client {
    const id: string
    var rooms: set<string>
    var queue: seq<string>  // messages in the send channel
    var closes: nat         // how often the send channel was closed

    constructor (id: string)
      ensures this.id == id && rooms == {} && queue == [] && closes == 0
    {
      this.id := id;
      rooms, queue, closes := {}, [], 0;
    }

    predicate Open()
      reads this
    {
      closes == 0
    }
  }

  /** The room index after one client leaves one room. */
  function Removed(rooms: map<string, set<Client>>, c: Client, r: string): map<string, set<Client>> {
    if r !in rooms then rooms
    else if rooms[r] <= {c} then rooms - {r}
    else rooms[r := rooms[r] - {c}]
  }

  /** The room index after one client leaves some rooms. */
  function RemovedAll(rooms: map<string, set<Client>>, c: Client, some: set<string>): map<string, set<Client>> {
    map r | r in rooms && !(r in some && rooms[r] <= {c}) :: if r in some then rooms[r] - {c} else rooms[r]
  }

  /** Every other member stays, no emptied room stays, and the client is in none of the rooms. */
  lemma RemovedAllMembers(rooms: map<string, set<Client>>, c: Client, some: set<string>)
    ensures forall r, d :: d != c ==>
              ((r in RemovedAll(rooms, c, some) && d in RemovedAll(rooms, c, some)[r]) <==> r in rooms && d in rooms[r])
    ensures forall r :: r in RemovedAll(rooms, c, some) && rooms[r] != {} ==> RemovedAll(rooms, c, some)[r] != {}
    ensures forall r :: r in some && r in RemovedAll(rooms, c, some) ==> c !in RemovedAll(rooms, c, some)[r]
    ensures forall r :: r in RemovedAll(rooms, c, some) ==> RemovedAll(rooms, c, some)[r] <= rooms[r]
  {
  }

  class Hub {
    var clients: map<string, Client>
    var rooms: map<string, set<Client>>
    ghost var known: set<Client>  // every client the hub has seen

    predicate Registered(c: Client)
      reads this
    {
      c.id in clients && clients[c.id] == c
    }

    /** Holds whatever the callers do: no stored room is empty, and whoever is in a room lists it. */
    ghost predicate Valid()
      reads this, known
    {
      && (forall id :: id in clients ==> clients[id] in known && clients[id].id == id)
      && (forall r :: r in rooms ==> rooms[r] != {} && rooms[r] <= known)
      && (forall r, c :: r in rooms && c in rooms[r] ==> r in c.rooms)
    }

    /** Holds while client IDs are distinct and clients join only while registered: whoever is
        registered has an open channel, whoever is in a room is registered, and no channel was
        closed twice. */
    ghost predicate Clean()
      reads this, known
    {
      && (forall c :: c in known && Registered(c) ==> c.Open())
      && (forall r, c :: r in rooms && c in rooms[r] ==> Registered(c))
      && (forall c :: c in known ==> c.closes <= 1)
    }

    constructor ()
      ensures Valid() && Clean() && clients == map[] && rooms == map[] && known == {}
    {
      clients, rooms, known := map[], map[], {};
    }

    /** The register branch of run. */
    method Register(c: Client)
      requires Valid()
      modifies this
      ensures Valid() && known == old(known) + {c} && rooms == old(rooms)
      ensures clients == old(clients)[c.id := c]
      ensures old(Clean()) && c.Open() && (c.id in old(clients) ==> old(clients)[c.id] == c) ==> Clean()
    {
      clients := clients[c.id := c];
      known := known + {c};
      if old(Clean()) && c.Open() && (c.id in old(clients) ==> old(clients)[c.id] == c) {
        forall r, d | r in rooms && d in rooms[r]
          ensures Registered(d)
        {
          assert old(Registered(d));
        }
        forall d | d in known && Registered(d)
          ensures d.Open()
        {
          assert d == c || old(Registered(d));
        }
        forall d | d in known
          ensures d.closes <= 1
        {
          assert d == c || d in old(known);
        }
      }
    }

    /** The unregister branch of run; closing a closed channel would panic. */
    method Unregister(c: Client) returns (panicked: bool)
      requires Valid()
      modifies this, c
      ensures Valid() && known == old(known) + {c}
      ensures c.id !in old(clients) ==> !panicked && clients == old(clients) && rooms == old(rooms) && unchanged(c)
      ensures c.id in old(clients) ==>
                && (panicked <==> !old(c.Open()))
                && clients == old(clients) - {c.id}
                && c.closes == old(c.closes) + 1 && c.rooms == old(c.rooms) && c.queue == old(c.queue)
      ensures c.id in old(clients) && !panicked ==> rooms == RemovedAll(old(rooms), c, c.rooms)
      ensures old(Clean()) && (c.id in old(clients) ==> old(clients)[c.id] == c) && old(c.closes <= 1) ==> Clean() && !panicked
    {
      panicked := false;
      known := known + {c};
      if c.id in clients {
        clients := clients - {c.id};
        panicked := !c.Open();
        c.closes := c.closes + 1;
        if panicked {
          return;
        }
        LeaveAll(c, c.rooms);
      }
      RemovedAllMembers(old(rooms), c, c.rooms);
      if old(Clean()) && (c.id in old(clients) ==> old(clients)[c.id] == c) {
        forall r, d | r in rooms && d in rooms[r]
          ensures Registered(d)
        {
          assert old(r in rooms && d in rooms[r]);
          assert old(Registered(d));
        }
      }
    }

    /** The loop over the rooms a client lists. */
    method LeaveAll(c: Client, some: set<string>)
      modifies this`rooms
      ensures rooms == RemovedAll(old(rooms), c, some)
    {
      var todo := some;
      while todo != {}
        invariant todo <= some
        invariant rooms == RemovedAll(old(rooms), c, some - todo)
        decreases todo
      {
        var r :| r in todo;
        RemoveMember(c, r);
        todo := todo - {r};
      }
    }

    /** delete(members, client), and the room with its last member. */
    method RemoveMember(c: Client, r: string)
      modifies this`rooms
      ensures rooms == Removed(old(rooms), c, r)
    {
      if r in rooms {
        var members := rooms[r] - {c};
        if members == {} {
          rooms := rooms - {r};
        } else {
          rooms := rooms[r := members];
        }
      }
    }

    /** A missing room is made first. */
    method AddMember(c: Client, r: string)
      modifies this`rooms
      ensures rooms == old(rooms)[r := (if r in old(rooms) then old(rooms)[r] else {}) + {c}]
    {
      if r !in rooms {
        rooms := rooms[r := {}];
      }
      rooms := rooms[r := rooms[r] + {c}];
    }

    method JoinRoom(c: Client, r: string)
      requires Valid()
      modifies this, c
      ensures Valid() && known == old(known) + {c} && clients == old(clients)
      ensures rooms == old(rooms)[r := (if r in old(rooms) then old(rooms)[r] else {}) + {c}]
      ensures c.rooms == old(c.rooms) + {r} && c.queue == old(c.queue) && c.closes == old(c.closes)
      ensures old(Clean()) && c.closes <= 1 ==> (Clean() <==> Registered(c))
    {
      AddMember(c, r);
      c.rooms := c.rooms + {r};
      known := known + {c};
      assert r in rooms && c in rooms[r];
      if old(Clean()) && Registered(c) {
        assert c in old(known);
        forall s, d | s in rooms && d in rooms[s]
          ensures Registered(d)
        {
          assert d == c || old(s in rooms && d in rooms[s] && Registered(d));
        }
        forall d | d in known && Registered(d)
          ensures d.Open()
        {
          assert old(Registered(d));
        }
      }
    }

    method LeaveRoom(c: Client, r: string)
      requires Valid()
      modifies this, c
      ensures Valid() && known == old(known) + {c} && clients == old(clients)
      ensures c.rooms == old(c.rooms) - {r} && c.queue == old(c.queue) && c.closes == old(c.closes)
      ensures rooms == Removed(old(rooms), c, r)
      ensures old(Clean()) && c.closes <= 1 ==> Clean()
    {
      RemoveMember(c, r);
      c.rooms := c.rooms - {r};
      known := known + {c};
      if old(Clean()) {
        forall s, d | s in rooms && d in rooms[s]
          ensures Registered(d)
        {
          assert old(s in rooms && d in rooms[s] && Registered(d));
        }
        forall d | d in known && Registered(d)
          ensures d.Open()
        {
          assert old(Registered(d)) && d in old(known);
        }
      }
    }

    /** The loop of a broadcast: every target with room in its buffer gets the message; a send on a
        closed channel panics. */
    method SendAll(targets: set<Client>, data: string) returns (panicked: bool)
      modifies targets`queue
      ensures panicked <==> exists c :: c in targets && !c.Open()
      ensures !panicked ==> forall c :: c in targets ==>
                c.queue == old(c.queue) + if old(|c.queue|) < 256 then [data] else []
    {
      panicked := false;
      var todo := targets;
      while todo != {}
        invariant todo <= targets
        invariant forall c :: c in targets && c !in todo ==>
                    c.Open() && c.queue == old(c.queue) + if old(|c.queue|) < 256 then [data] else []
        invariant forall c :: c in todo ==> c.queue == old(c.queue)
        decreases todo
      {
        var c :| c in todo;
        if !c.Open() {
          return true;
        }
        if |c.queue| < BUFFER {
          c.queue := c.queue + [data];
        }
        todo := todo - {c};
      }
    }

    method Broadcast(data: string) returns (panicked: bool)
      requires Valid()
      modifies known`queue
      ensures Valid()
      ensures panicked <==> exists c :: c in known && Registered(c) && !c.Open()
      ensures Clean() ==> !panicked
      ensures !panicked ==> forall c :: c in known ==>
                c.queue == old(c.queue) + if Registered(c) && old(|c.queue|) < 256 then [data] else []
    {
      var targets := set id | id in clients :: clients[id];
      panicked := SendAll(targets, data);
    }

    method BroadcastToRoom(r: string, data: string) returns (panicked: bool)
      requires Valid()
      modifies known`queue
      ensures Valid()
      ensures panicked <==> exists c :: r in rooms && c in rooms[r] && !c.Open()
      ensures Clean() ==> !panicked
      ensures !panicked ==> forall c :: c in known ==>
                c.queue == old(c.queue) + if r in rooms && c in rooms[r] && old(|c.queue|) < 256 then [data] else []
    {
      panicked := false;
      if r in rooms {
        panicked := SendAll(rooms[r], data);
      }
    }

    method BroadcastToRoomExcept(r: string, data: string, excludeId: string) returns (panicked: bool)
      requires Valid()
      modifies known`queue
      ensures Valid()
      ensures panicked <==> exists c :: r in rooms && c in rooms[r] && c.id != excludeId && !c.Open()
      ensures Clean() ==> !panicked
      ensures !panicked ==> forall c :: c in known ==>
                c.queue == old(c.queue)
                           + if r in rooms && c in rooms[r] && c.id != excludeId && old(|c.queue|) < 256 then [data] else []
    {
      panicked := false;
      if r in rooms {
        var members := rooms[r];
        var targets := set c | c in members && c.id != excludeId;
        panicked := SendAll(targets, data);
      }
    }
  }

  // ---------- runs ----------

  datatype Event =
    | RegisterEvent(c: Client)
    | UnregisterEvent(c: Client)
    | JoinEvent(c: Client, room: string)
    | LeaveEvent(c: Client, room: string)
    | BroadcastEvent(data: string)
    | RoomEvent(room: string, data: string)
    | RoomExceptEvent(room: string, data: string, excludeId: string)

  /** The rules for callers: IDs are distinct, a client registers before its channel is closed, and
      joins only while registered. */
  predicate Allowed(hub: Hub, e: Event)
    reads hub, if e.RegisterEvent? || e.UnregisterEvent? || e.JoinEvent? || e.LeaveEvent? then {e.c} else {}
  {
    match e
    case RegisterEvent(c) => c.Open() && (c.id in hub.clients ==> hub.clients[c.id] == c)
    case UnregisterEvent(c) => c.closes <= 1 && (c.id in hub.clients ==> hub.clients[c.id] == c)
    case JoinEvent(c, _) => hub.Registered(c)
    case LeaveEvent(c, _) => c.closes <= 1
    case _ => true
  }

  /** One event that keeps the rules keeps both invariants and panics nowhere. */
  method Act(hub: Hub, e: Event) returns (panicked: bool)
    requires hub.Valid() && hub.Clean() && Allowed(hub, e)
    modifies hub, hub.known, if e.RegisterEvent? || e.UnregisterEvent? || e.JoinEvent? || e.LeaveEvent? then {e.c} else {}
    ensures hub.Valid() && hub.Clean() && !panicked
    ensures hub.known == old(hub.known) + if e.RegisterEvent? || e.UnregisterEvent? || e.JoinEvent? || e.LeaveEvent? then {e.c} else {}
  {
    panicked := false;
    match e
    case RegisterEvent(c) => hub.Register(c);
    case UnregisterEvent(c) => panicked := hub.Unregister(c);
    case JoinEvent(c, room) =>
      assert c in hub.known;
      hub.JoinRoom(c, room);
    case LeaveEvent(c, room) => hub.LeaveRoom(c, room);
    case BroadcastEvent(data) => panicked := hub.Broadcast(data);
    case RoomEvent(room, data) => panicked := hub.BroadcastToRoom(room, data);
    case RoomExceptEvent(room, data, excludeId) => panicked := hub.BroadcastToRoomExcept(room, data, excludeId);
  }

  /** Over any sequence of events that keep the rules (others are not made), in every reachable
      state: both invariants hold, no broadcast hits a closed channel, no channel is closed twice. */
  method Serve(hub: Hub, events: seq<Event>, actors: set<Client>) returns (panicked: bool)
    requires hub.Valid() && hub.Clean() && hub.known <= actors
    requires forall e :: e in events && (e.RegisterEvent? || e.UnregisterEvent? || e.JoinEvent? || e.LeaveEvent?) ==> e.c in actors
    modifies hub, actors
    ensures hub.Valid() && hub.Clean() && hub.known <= actors && !panicked
    ensures forall c :: c in hub.known ==> c.closes <= 1
  {
    panicked := false;
    var i := 0;
    while i < |events|
      invariant 0 <= i <= |events|
      invariant hub.Valid() && hub.Clean() && hub.known <= actors && !panicked
    {
      assert events[i] in events;
      if Allowed(hub, events[i]) {
        panicked := Act(hub, events[i]);
      }
      i := i + 1;
    }
  }

  /** The rule on joining is needed: for every client and room, a join that arrives after the
      client was unregistered makes the next broadcast to the room panic. */
  method LateJoinPanics(id: string, room: string, data: string) returns (panicked: bool)
    ensures panicked
  {
    var hub := new Hub();
    var c := new Client(id);
    hub.Register(c);
    var p := hub.Unregister(c);
    hub.JoinRoom(c, room);
    assert c in hub.rooms[room] && !c.Open();
    panicked := hub.BroadcastToRoom(room, data);
  }
}
