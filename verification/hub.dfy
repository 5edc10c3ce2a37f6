/**
  The WebSocket hub (internal/websocket/hub.go) as a sequential state
  machine: the registry of connections per user and per task room, and
  each connection's outbound queue `Send` with its capacity and its
  `closed` flag. The `Run` loop handles one command at a time, so each
  case is a function from hub to hub.

  A Go runtime panic inside `Run` (closing a closed channel, sending on a
  closed one) ends the hub: such a step yields `Crashed`. The functions
  with `Fixed` in their name are the repaired registry: a connection
  whose queue is full is detached everywhere at once, a closed queue is
  never sent to, and unregistering closes the queue only if it is open.
 */
module WsHub {
  import opened Common

  /** The identity of a `*Client`. */
  type ClientId = string

  /** A hub message; it is delivered as it is (its JSON encoding is not modelled). */
  datatype Message = Message(kind: string, taskId: TaskId, payload: string, userId: UserId, timestamp: string)

  /** The buffer of `Send`, as the connection handler allocates it. */
  const SendCapacity: nat := 256

  /** A connection's outbound channel: what is buffered, and whether it was closed. */
  datatype Queue = Queue(items: seq<Message>, closed: bool)

  /** A client: its user, the rooms it believes it is in, and its queue. */
  datatype Conn = Conn(userId: UserId, rooms: set<TaskId>, send: Queue)

  datatype Hub = Hub(
    clients: map<UserId, set<ClientId>>,
    rooms: map<TaskId, set<ClientId>>,
    conns: map<ClientId, Conn>)

  datatype Outcome = Running(hub: Hub) | Crashed

  const Empty: Hub := Hub(map[], map[], map[])

  /** `close(ch)`; closing twice is a panic, so only an open channel may be closed. */
  function Close(q: Queue): (r: Queue)
    requires !q.closed
    ensures r.closed && r.items == q.items
  {
    q.(closed := true)
  }

  predicate Full(q: Queue) {
    |q.items| >= SendCapacity
  }

  /**
    The registry is consistent: no user or room has an empty set, every
    member is a known connection of the right user, and a connection is
    in a room's set exactly when the room is in the connection's own list.
   */
  predicate Wf(h: Hub) {
    UsersWf(h) && RoomsWf(h) && MirrorWf(h)
  }

  /** Every user set is non-empty and holds known connections of that user. */
  predicate UsersWf(h: Hub) {
    (forall u :: u in h.clients ==> h.clients[u] != {})
    && (forall u, c :: u in h.clients && c in h.clients[u] ==> c in h.conns && h.conns[c].userId == u)
  }

  /** Every room is non-empty and each member lists the room. */
  predicate RoomsWf(h: Hub) {
    (forall t :: t in h.rooms ==> h.rooms[t] != {})
    && (forall t, c :: t in h.rooms && c in h.rooms[t] ==> c in h.conns && t in h.conns[c].rooms)
  }

  /** Every room a connection lists has it as a member. */
  predicate MirrorWf(h: Hub) {
    forall c, t :: c in h.conns && t in h.conns[c].rooms ==> t in h.rooms && c in h.rooms[t]
  }

  /** The connection is in its user's set. */
  predicate Registered(h: Hub, c: ClientId) {
    c in h.conns && h.conns[c].userId in h.clients && c in h.clients[h.conns[c].userId]
  }

  /** A set without `c`, or the key gone when that empties it. */
  function Without<K>(m: map<K, set<ClientId>>, k: K, c: ClientId): (r: map<K, set<ClientId>>)
    ensures k in m && m[k] - {c} != {} ==> r == m[k := m[k] - {c}]
    ensures k in m && m[k] - {c} == {} ==> r == m - {k}
    ensures k !in m ==> r == m
  {
    if k in m then
      if m[k] - {c} == {} then m - {k} else m[k := m[k] - {c}]
    else m
  }

  /** The `Register` case: a new connection joins its user's set, which is created on first use. */
  function Register(h: Hub, c: ClientId, userId: UserId): (r: Hub)
    requires c !in h.conns
    ensures r.conns == h.conns[c := Conn(userId, {}, Queue([], false))]
    ensures r.rooms == h.rooms
    ensures userId in r.clients && r.clients[userId] == (if userId in h.clients then h.clients[userId] else {}) + {c}
    ensures forall u :: u != userId ==> (u in r.clients <==> u in h.clients)
    ensures forall u :: u != userId && u in h.clients ==> r.clients[u] == h.clients[u]
    ensures Registered(r, c)
  {
    var set_ := if userId in h.clients then h.clients[userId] else {};
    Hub(h.clients[userId := set_ + {c}], h.rooms, h.conns[c := Conn(userId, {}, Queue([], false))])
  }

  /** `JoinRoom`: membership is recorded on both sides; the room is created if it is new. */
  function JoinRoom(h: Hub, c: ClientId, t: TaskId): (r: Hub)
    requires c in h.conns
    ensures c in r.conns && t in r.rooms && c in r.rooms[t] && t in r.conns[c].rooms
    ensures r.clients == h.clients && r.conns.Keys == h.conns.Keys
    ensures forall u :: u in h.rooms && u != t ==> u in r.rooms && r.rooms[u] == h.rooms[u]
    ensures r.rooms.Keys == h.rooms.Keys + {t}
    ensures t in h.rooms ==> r.rooms[t] == h.rooms[t] + {c}
    ensures r.conns[c] == h.conns[c].(rooms := h.conns[c].rooms + {t})
    ensures forall d :: d in h.conns && d != c ==> r.conns[d] == h.conns[d]
  {
    var set_ := if t in h.rooms then h.rooms[t] else {};
    var conn := h.conns[c];
    h.(rooms := h.rooms[t := set_ + {c}], conns := h.conns[c := conn.(rooms := conn.rooms + {t})])
  }

  /**
    `LeaveRoom`: the client leaves the room, an emptied room is deleted,
    and the room leaves the client's list; an unknown room only touches
    the list.
   */
  function LeaveRoom(h: Hub, c: ClientId, t: TaskId): (r: Hub)
    requires c in h.conns
    ensures c in r.conns && t !in r.conns[c].rooms && (t in r.rooms ==> c !in r.rooms[t])
    ensures t !in h.rooms ==> r.rooms == h.rooms
    ensures t in h.rooms && h.rooms[t] <= {c} ==> t !in r.rooms
    ensures r.clients == h.clients && r.conns.Keys == h.conns.Keys
    ensures r.conns[c] == h.conns[c].(rooms := h.conns[c].rooms - {t})
    ensures forall u :: u in h.rooms && u != t ==> u in r.rooms && r.rooms[u] == h.rooms[u]
    ensures forall d :: d in h.conns && d != c ==> r.conns[d] == h.conns[d]
  {
    var conn := h.conns[c];
    h.(rooms := Without(h.rooms, t, c), conns := h.conns[c := conn.(rooms := conn.rooms - {t})])
  }

  /** Every room in `ts` without `c`, emptied rooms deleted: the loop over `client.Rooms`. */
  function LeaveAll(rooms: map<TaskId, set<ClientId>>, c: ClientId, ts: set<TaskId>): (r: map<TaskId, set<ClientId>>)
    ensures forall t :: t in r ==> t in rooms && (r[t] != {} || (rooms[t] == {} && t !in ts))
    ensures forall t :: t in rooms && t !in ts ==> t in r && r[t] == rooms[t]
    ensures forall t :: t in r && t in ts ==> r[t] == rooms[t] - {c}
    ensures forall t :: t in rooms && t in ts && rooms[t] - {c} != {} ==> t in r
  {
    map t | t in rooms && !(t in ts && rooms[t] - {c} == {}) :: if t in ts then rooms[t] - {c} else rooms[t]
  }

  /** The registry after `c` is unregistered, before its queue is closed. */
  function Detach(h: Hub, c: ClientId): (r: Hub)
    requires c in h.conns
    ensures r.conns == h.conns[c := h.conns[c].(rooms := {})]
    ensures !Registered(r, c)
    ensures r.rooms == LeaveAll(h.rooms, c, h.conns[c].rooms)
  {
    var conn := h.conns[c];
    Hub(Without(h.clients, conn.userId, c), LeaveAll(h.rooms, c, conn.rooms), h.conns[c := conn.(rooms := {})])
  }

  /**
    The `Unregister` case as written: leave the user's set and every room
    in the client's list, then close `Send`, which panics if it is closed
    already.
   */
  function Unregister(h: Hub, c: ClientId): (r: Outcome)
    requires c in h.conns
    ensures r.Crashed? <==> h.conns[c].send.closed
    ensures r.Running? ==> c in r.hub.conns && r.hub.conns[c].send.closed && r.hub.conns[c].rooms == {} && !Registered(r.hub, c)
    ensures r.Running? ==> c in r.hub.conns && r.hub.conns[c].send.items == h.conns[c].send.items
  {
    var conn := h.conns[c];
    if conn.send.closed then Crashed
    else
      var d := Detach(h, c);
      Running(d.(conns := d.conns[c := d.conns[c].(send := Close(conn.send))]))
  }

  /** `Unregister` with the close skipped when the queue is closed already. */
  function UnregisterFixed(h: Hub, c: ClientId): (r: Hub)
    requires c in h.conns
    ensures c in r.conns && r.conns[c].send.closed && r.conns[c].rooms == {} && !Registered(r, c)
    ensures r.conns[c].send.items == h.conns[c].send.items
    ensures !h.conns[c].send.closed ==> Unregister(h, c) == Running(r)
  {
    var conn := h.conns[c];
    var d := Detach(h, c);
    var q := if conn.send.closed then conn.send else Close(conn.send);
    d.(conns := d.conns[c := d.conns[c].(send := q)])
  }

  /** One non-blocking send: queued if there is room, otherwise the queue is closed and the message lost. */
  function Deliver(q: Queue, m: Message): (r: Queue)
    requires !q.closed
    ensures !Full(q) ==> r == Queue(q.items + [m], false)
    ensures Full(q) ==> r == Queue(q.items, true)
  {
    if Full(q) then Close(q) else q.(items := q.items + [m])
  }

  /** A member of `members` whose queue is already closed: sending to it panics. */
  predicate AnyClosed(conns: map<ClientId, Conn>, members: set<ClientId>) {
    exists c :: c in members && c in conns && conns[c].send.closed
  }

  /** The connections after one send to each member, when none of them is closed. */
  function DeliverAll(conns: map<ClientId, Conn>, members: set<ClientId>, m: Message): (r: map<ClientId, Conn>)
    requires !AnyClosed(conns, members)
    ensures r.Keys == conns.Keys
    ensures forall c :: c in conns && c !in members ==> r[c] == conns[c]
    ensures forall c :: c in conns && c in members ==> r[c] == conns[c].(send := Deliver(conns[c].send, m))
  {
    map c | c in conns :: if c in members then conns[c].(send := Deliver(conns[c].send, m)) else conns[c]
  }

  /** The members whose queue was full: these are the ones a send drops. */
  function FullMembers(conns: map<ClientId, Conn>, members: set<ClientId>): set<ClientId> {
    set c | c in members && c in conns && Full(conns[c].send)
  }

  /** The room phase of `Broadcast`: deliver to the room's members, removing the dropped ones from that set only. */
  function RoomPhase(h: Hub, m: Message): Outcome {
    if m.taskId != "" && m.taskId in h.rooms then
      var members := h.rooms[m.taskId];
      if AnyClosed(h.conns, members) then Crashed
      else Running(h.(conns := DeliverAll(h.conns, members, m),
                      rooms := h.rooms[m.taskId := members - FullMembers(h.conns, members)]))
    else Running(h)
  }

  /** The user phase of `Broadcast`: deliver to the user's connections, removing the dropped ones from that set only. */
  function UserPhase(h: Hub, m: Message): Outcome {
    if m.userId != "" && m.userId in h.clients then
      var members := h.clients[m.userId];
      if AnyClosed(h.conns, members) then Crashed
      else Running(h.(conns := DeliverAll(h.conns, members, m),
                      clients := h.clients[m.userId := members - FullMembers(h.conns, members)]))
    else Running(h)
  }

  /**
    The `Broadcast` case as written: the task's room first, then the
    author's connections. A full queue is closed and left out of the set
    being walked, nothing more.
   */
  function Broadcast(h: Hub, m: Message): (r: Outcome)
    ensures RoomPhase(h, m).Crashed? ==> r.Crashed?
    ensures r.Running? ==> r.hub.conns.Keys == h.conns.Keys
  {
    match RoomPhase(h, m)
    case Crashed => Crashed
    case Running(h1) => UserPhase(h1, m)
  }

  /** A phase that runs removes only closed connections from the one set it walks, and touches nothing else. */
  lemma {:induction false} PhaseShrinksOnlyItsSet(conns: map<ClientId, Conn>, members: set<ClientId>, m: Message)
    requires !AnyClosed(conns, members)
    ensures var r := DeliverAll(conns, members, m);
            (forall c :: c in members && c in conns ==> (c in FullMembers(conns, members) <==> r[c].send.closed))
            && (forall c :: c in conns ==> r[c].rooms == conns[c].rooms && r[c].userId == conns[c].userId)
            && (forall c :: c in conns && conns[c].send.closed ==> r[c] == conns[c])
  {
    var r := DeliverAll(conns, members, m);
    forall c | c in members && c in conns
      ensures c in FullMembers(conns, members) <==> r[c].send.closed
    {
      assert !conns[c].send.closed;
    }
  }

  /**
    What a broadcast that runs does to the registry: the room's set and
    the author's set may only lose members, each lost member's queue is
    closed, every other room and user set is as it was, and no
    connection's own room list or user changes, so a dropped connection
    still lists the room it was removed from.
   */
  lemma BroadcastShrinksOnlyTargets(h: Hub, m: Message)
    requires Broadcast(h, m).Running?
    ensures var r := Broadcast(h, m).hub;
            r.rooms.Keys == h.rooms.Keys && r.clients.Keys == h.clients.Keys
            && (forall t :: t in h.rooms ==> r.rooms[t] <= h.rooms[t])
            && (forall t :: t in h.rooms && t != m.taskId ==> r.rooms[t] == h.rooms[t])
            && (forall u :: u in h.clients ==> r.clients[u] <= h.clients[u])
            && (forall u :: u in h.clients && u != m.userId ==> r.clients[u] == h.clients[u])
            && (forall c :: c in h.conns ==> r.conns[c].rooms == h.conns[c].rooms && r.conns[c].userId == h.conns[c].userId)
            && (forall t, c :: t in h.rooms && c in h.rooms[t] - r.rooms[t] && c in h.conns ==> r.conns[c].send.closed)
            && (forall u, c :: u in h.clients && c in h.clients[u] - r.clients[u] && c in h.conns ==> r.conns[c].send.closed)
  {
    var h1 := RoomPhase(h, m).hub;
    if m.taskId != "" && m.taskId in h.rooms {
      PhaseShrinksOnlyItsSet(h.conns, h.rooms[m.taskId], m);
    }
    if m.userId != "" && m.userId in h1.clients {
      PhaseShrinksOnlyItsSet(h1.conns, h1.clients[m.userId], m);
    }
  }

  /** The connection is in the room the message is addressed to. */
  predicate InRoom(h: Hub, m: Message, c: ClientId) {
    m.taskId != "" && m.taskId in h.rooms && c in h.rooms[m.taskId]
  }

  /** The connection is one of the author's. */
  predicate OfAuthor(h: Hub, m: Message, c: ClientId) {
    m.userId != "" && m.userId in h.clients && c in h.clients[m.userId]
  }

  /** How many copies of `m` the connection is sent: one per set it is found in. */
  function Copies(h: Hub, m: Message, c: ClientId): nat {
    (if InRoom(h, m, c) then 1 else 0) + (if OfAuthor(h, m, c) then 1 else 0)
  }

  /** Every queue is open and has room for `k` more messages. */
  predicate Roomy(conns: map<ClientId, Conn>, k: nat) {
    forall c :: c in conns ==> !conns[c].send.closed && |conns[c].send.items| + k <= SendCapacity
  }

  /** The room phase with room to spare: each member gets one copy, the registry stays. */
  lemma RoomPhaseRoomy(h: Hub, m: Message, k: nat)
    requires Roomy(h.conns, k + 1)
    ensures RoomPhase(h, m).Running?
    ensures var h1 := RoomPhase(h, m).hub;
            h1.rooms == h.rooms && h1.clients == h.clients && h1.conns.Keys == h.conns.Keys && Roomy(h1.conns, k)
            && forall c :: c in h.conns ==>
                 h1.conns[c] == h.conns[c].(send := Queue(h.conns[c].send.items + (if InRoom(h, m, c) then [m] else []), false))
  {
    if m.taskId != "" && m.taskId in h.rooms {
      forall c | c in h.conns ensures !Full(h.conns[c].send) { }
      assert FullMembers(h.conns, h.rooms[m.taskId]) == {};
      assert h.rooms[m.taskId] - {} == h.rooms[m.taskId];
      assert h.rooms[m.taskId := h.rooms[m.taskId] - {}] == h.rooms;
    }
  }

  /** The user phase with room to spare: each of the author's connections gets one copy, the registry stays. */
  lemma UserPhaseRoomy(h: Hub, m: Message, k: nat)
    requires Roomy(h.conns, k + 1)
    ensures UserPhase(h, m).Running?
    ensures var h1 := UserPhase(h, m).hub;
            h1.rooms == h.rooms && h1.clients == h.clients && h1.conns.Keys == h.conns.Keys && Roomy(h1.conns, k)
            && forall c :: c in h.conns ==>
                 h1.conns[c] == h.conns[c].(send := Queue(h.conns[c].send.items + (if OfAuthor(h, m, c) then [m] else []), false))
  {
    if m.userId != "" && m.userId in h.clients {
      forall c | c in h.conns ensures !Full(h.conns[c].send) { }
      assert FullMembers(h.conns, h.clients[m.userId]) == {};
      assert h.clients[m.userId] - {} == h.clients[m.userId];
      assert h.clients[m.userId := h.clients[m.userId] - {}] == h.clients;
    }
  }

  /**
    Fan-out without drops: when every queue is open with room for two
    more, the broadcast runs, each connection gets one copy per set it is
    in (two when it is in the room and is one of the author's), and the
    registry is unchanged.
   */
  lemma BroadcastFanOut(h: Hub, m: Message)
    requires Roomy(h.conns, 2)
    ensures Broadcast(h, m).Running?
    ensures var r := Broadcast(h, m).hub;
            r.clients == h.clients && r.rooms == h.rooms
            && forall c :: c in h.conns ==>
                 c in r.conns && r.conns[c].rooms == h.conns[c].rooms && !r.conns[c].send.closed
                 && r.conns[c].send.items == h.conns[c].send.items + seq(Copies(h, m, c), _ => m)
  {
    RoomPhaseRoomy(h, m, 1);
    var h1 := RoomPhase(h, m).hub;
    UserPhaseRoomy(h1, m, 0);
    var r := Broadcast(h, m).hub;
    forall c | c in h.conns
      ensures r.conns[c].send.items == h.conns[c].send.items + seq(Copies(h, m, c), _ => m)
    {
      var a: seq<Message> := if InRoom(h, m, c) then [m] else [];
      var b: seq<Message> := if OfAuthor(h1, m, c) then [m] else [];
      assert OfAuthor(h1, m, c) == OfAuthor(h, m, c);
      assert r.conns[c].send.items == h.conns[c].send.items + a + b;
      assert seq(Copies(h, m, c), _ => m) == a + b;
    }
  }

  /** Each key's set without the members of `gone`; keys whose set empties are deleted. */
  function DropAll<K>(m: map<K, set<ClientId>>, gone: set<ClientId>): (r: map<K, set<ClientId>>)
    ensures forall k :: k in r ==> k in m && r[k] == m[k] - gone && r[k] != {}
    ensures forall k :: k in m && m[k] - gone != {} ==> k in r
  {
    map k | k in m && m[k] - gone != {} :: m[k] - gone
  }

  /** No user and no room has an empty set: the part of `Wf` that `DropAll` relies on. */
  predicate NoEmptySets(h: Hub) {
    (forall u :: u in h.clients ==> h.clients[u] != {}) && (forall t :: t in h.rooms ==> h.rooms[t] != {})
  }

  /** Dropping nobody changes nothing when no set is empty. */
  lemma DropNothing<K>(m: map<K, set<ClientId>>)
    requires forall k :: k in m ==> m[k] != {}
    ensures DropAll(m, {}) == m
  {
    assert forall k :: k in m ==> m[k] - {} == m[k];
  }

  /** The members that can be sent to: known and with an open queue. */
  function OpenMembers(conns: map<ClientId, Conn>, members: set<ClientId>): (r: set<ClientId>)
    ensures forall c :: c in r <==> c in members && c in conns && !conns[c].send.closed
  {
    set c | c in members && c in conns && !conns[c].send.closed
  }

  /**
    One phase of the repaired broadcast: closed queues are skipped, a
    member with room gets the message, and a member whose queue is full
    is closed and detached from every user set and every room at once.
   */
  function FixedPhase(h: Hub, members: set<ClientId>, m: Message): (r: Hub)
    ensures r.conns.Keys == h.conns.Keys
    ensures forall c :: c in h.conns && c !in OpenMembers(h.conns, members) ==> r.conns[c] == h.conns[c]
    ensures forall c :: c in OpenMembers(h.conns, members) && !Full(h.conns[c].send) ==>
              r.conns[c] == h.conns[c].(send := Queue(h.conns[c].send.items + [m], false))
    ensures forall c :: c in OpenMembers(h.conns, members) && Full(h.conns[c].send) ==>
              r.conns[c] == h.conns[c].(rooms := {}, send := Queue(h.conns[c].send.items, true))
    ensures r.clients == DropAll(h.clients, FullMembers(h.conns, OpenMembers(h.conns, members)))
    ensures r.rooms == DropAll(h.rooms, FullMembers(h.conns, OpenMembers(h.conns, members)))
  {
    var open := OpenMembers(h.conns, members);
    var full := FullMembers(h.conns, open);
    var conns := map c | c in h.conns ::
      if c in full then h.conns[c].(rooms := {}, send := h.conns[c].send.(closed := true))
      else if c in open then h.conns[c].(send := Deliver(h.conns[c].send, m))
      else h.conns[c];
    Hub(DropAll(h.clients, full), DropAll(h.rooms, full), conns)
  }

  /** The room phase of the repaired broadcast. */
  function FixedRoomPhase(h: Hub, m: Message): Hub {
    if m.taskId != "" && m.taskId in h.rooms then FixedPhase(h, h.rooms[m.taskId], m) else h
  }

  /** The user phase of the repaired broadcast. */
  function FixedUserPhase(h: Hub, m: Message): Hub {
    if m.userId != "" && m.userId in h.clients then FixedPhase(h, h.clients[m.userId], m) else h
  }

  /** The repaired `Broadcast`: the same two phases, each through `FixedPhase`; it cannot panic. */
  function BroadcastFixed(h: Hub, m: Message): (r: Hub)
    ensures r.conns.Keys == h.conns.Keys
  {
    FixedUserPhase(FixedRoomPhase(h, m), m)
  }

  /** A phase of the repaired broadcast keeps the registry consistent. */
  lemma FixedPhaseKeepsWf(h: Hub, members: set<ClientId>, m: Message)
    requires Wf(h)
    ensures Wf(FixedPhase(h, members, m))
  {
    FixedPhaseKeepsUsers(h, members, m);
    FixedPhaseKeepsRooms(h, members, m);
    FixedPhaseKeepsMirror(h, members, m);
  }

  lemma FixedPhaseKeepsUsers(h: Hub, members: set<ClientId>, m: Message)
    requires UsersWf(h)
    ensures UsersWf(FixedPhase(h, members, m))
  {
  }

  lemma {:induction false} FixedPhaseKeepsRooms(h: Hub, members: set<ClientId>, m: Message)
    requires RoomsWf(h)
    ensures RoomsWf(FixedPhase(h, members, m))
  {
    var r := FixedPhase(h, members, m);
    var full := FullMembers(h.conns, OpenMembers(h.conns, members));
    forall t, c | t in r.rooms && c in r.rooms[t]
      ensures c in r.conns && t in r.conns[c].rooms
    {
      assert c in h.rooms[t] && c !in full;
      assert r.conns[c].rooms == h.conns[c].rooms;
    }
  }

  lemma {:induction false} FixedPhaseKeepsMirror(h: Hub, members: set<ClientId>, m: Message)
    requires MirrorWf(h)
    ensures MirrorWf(FixedPhase(h, members, m))
  {
    var r := FixedPhase(h, members, m);
    var full := FullMembers(h.conns, OpenMembers(h.conns, members));
    forall c, t | c in r.conns && t in r.conns[c].rooms
      ensures t in r.rooms && c in r.rooms[t]
    {
      assert c !in full;
      assert r.conns[c].rooms == h.conns[c].rooms;
      assert c in h.rooms[t] - full;
    }
  }

  /** The repaired broadcast keeps the registry consistent. */
  lemma BroadcastFixedKeepsWf(h: Hub, m: Message)
    requires Wf(h)
    ensures Wf(BroadcastFixed(h, m))
  {
    if m.taskId != "" && m.taskId in h.rooms {
      FixedPhaseKeepsWf(h, h.rooms[m.taskId], m);
    }
    var h1 := FixedRoomPhase(h, m);
    if m.userId != "" && m.userId in h1.clients {
      FixedPhaseKeepsWf(h1, h1.clients[m.userId], m);
    }
  }

  /** A repaired phase with room to spare is a plain delivery to every member. */
  lemma FixedPhaseRoomy(h: Hub, members: set<ClientId>, m: Message)
    requires Roomy(h.conns, 1)
    requires NoEmptySets(h)
    ensures !AnyClosed(h.conns, members) && FullMembers(h.conns, members) == {}
    ensures FixedPhase(h, members, m) == h.(conns := DeliverAll(h.conns, members, m))
  {
    forall c | c in h.conns ensures !Full(h.conns[c].send) { }
    assert FullMembers(h.conns, OpenMembers(h.conns, members)) == {};
    DropNothing(h.rooms);
    DropNothing(h.clients);
    assert FixedPhase(h, members, m).conns == DeliverAll(h.conns, members, m);
  }

  /** The room phases agree when no queue is full. */
  lemma RoomPhasesAgree(h: Hub, m: Message)
    requires NoEmptySets(h) && Roomy(h.conns, 1)
    ensures RoomPhase(h, m) == Running(FixedRoomPhase(h, m))
  {
    if m.taskId != "" && m.taskId in h.rooms {
      var members := h.rooms[m.taskId];
      FixedPhaseRoomy(h, members, m);
      assert members - {} == members;
    }
  }

  /** The user phases agree when no queue is full. */
  lemma UserPhasesAgree(h: Hub, m: Message)
    requires NoEmptySets(h) && Roomy(h.conns, 1)
    ensures UserPhase(h, m) == Running(FixedUserPhase(h, m))
  {
    if m.userId != "" && m.userId in h.clients {
      var members := h.clients[m.userId];
      FixedPhaseRoomy(h, members, m);
      assert members - {} == members;
    }
  }

  /** Without drops the repair changes nothing: both broadcasts give the same hub. */
  lemma FixedAgreesWhenRoomy(h: Hub, m: Message)
    requires NoEmptySets(h) && Roomy(h.conns, 2)
    ensures Broadcast(h, m) == Running(BroadcastFixed(h, m))
  {
    RoomPhasesAgree(h, m);
    RoomPhaseRoomy(h, m, 1);
    var h1 := FixedRoomPhase(h, m);
    assert h1.rooms == h.rooms && h1.clients == h.clients;
    UserPhasesAgree(h1, m);
  }

  /** The empty hub `NewHub` builds is consistent. */
  lemma EmptyWf()
    ensures Wf(Empty)
  {
  }

  /** Registering a fresh connection keeps the registry consistent. */
  lemma RegisterKeepsWf(h: Hub, c: ClientId, userId: UserId)
    requires Wf(h) && c !in h.conns
    ensures Wf(Register(h, c, userId))
  {
    var r := Register(h, c, userId);
    assert UsersWf(r) by {
      forall u, d | u in r.clients && d in r.clients[u]
        ensures d in r.conns && r.conns[d].userId == u
      {
        if d != c {
          assert d in h.clients[u];
        }
      }
    }
    assert RoomsWf(r);
    assert MirrorWf(r);
  }

  /** Joining a room keeps the registry consistent. */
  lemma JoinRoomKeepsWf(h: Hub, c: ClientId, t: TaskId)
    requires Wf(h) && c in h.conns
    ensures Wf(JoinRoom(h, c, t))
  {
    var r := JoinRoom(h, c, t);
    assert UsersWf(r);
    assert RoomsWf(r) by {
      forall u, d | u in r.rooms && d in r.rooms[u]
        ensures d in r.conns && u in r.conns[d].rooms
      {
        if u != t || d != c {
          assert d in h.rooms[u];
        }
      }
    }
    assert MirrorWf(r);
  }

  /** Leaving a room keeps the registry consistent. */
  lemma LeaveRoomKeepsWf(h: Hub, c: ClientId, t: TaskId)
    requires Wf(h) && c in h.conns
    ensures Wf(LeaveRoom(h, c, t))
  {
    var r := LeaveRoom(h, c, t);
    forall d, u | d in r.conns && u in r.conns[d].rooms
      ensures u in r.rooms && d in r.rooms[u]
    {
      if u == t {
        assert d != c && d in h.rooms[t] - {c};
      }
    }
  }

  /** Detaching a connection keeps the registry consistent. */
  lemma {:induction false} DetachKeepsWf(h: Hub, c: ClientId)
    requires Wf(h) && c in h.conns
    ensures Wf(Detach(h, c))
  {
    var r := Detach(h, c);
    var ts := h.conns[c].rooms;
    forall t, d | t in r.rooms && d in r.rooms[t]
      ensures d in r.conns && t in r.conns[d].rooms
    {
      assert d in h.rooms[t];
      assert d != c;
    }
    forall d, t | d in r.conns && t in r.conns[d].rooms
      ensures t in r.rooms && d in r.rooms[t]
    {
      assert d != c;
      assert d in h.rooms[t] - {c};
    }
  }

  /** When `Unregister` does not crash, the registry stays consistent. */
  lemma UnregisterKeepsWf(h: Hub, c: ClientId)
    requires Wf(h) && c in h.conns
    ensures Unregister(h, c).Running? ==> Wf(Unregister(h, c).hub)
  {
    DetachKeepsWf(h, c);
    if !h.conns[c].send.closed {
      SendOnlyKeepsWf(Detach(h, c), c, Close(h.conns[c].send));
    }
  }

  /** Replacing one connection's queue does not touch the registry. */
  lemma SendOnlyKeepsWf(h: Hub, c: ClientId, q: Queue)
    requires Wf(h) && c in h.conns
    ensures Wf(h.(conns := h.conns[c := h.conns[c].(send := q)]))
  {
  }

  /** The repaired `Unregister` keeps the registry consistent. */
  lemma UnregisterFixedKeepsWf(h: Hub, c: ClientId)
    requires Wf(h) && c in h.conns
    ensures Wf(UnregisterFixed(h, c))
  {
    DetachKeepsWf(h, c);
    var q := if h.conns[c].send.closed then h.conns[c].send else Close(h.conns[c].send);
    SendOnlyKeepsWf(Detach(h, c), c, q);
  }

  /**
    A drop leaves the connection half-registered: when the room phase
    closes a member's full queue, the broadcast (if it completes) leaves
    that queue closed while the connection still lists the room, so the
    registry is no longer consistent, and the connection's own deferred
    `Unregister` then closes the closed queue again.
   */
  lemma DropThenUnregisterCrashes(h: Hub, m: Message, c: ClientId)
    requires Wf(h) && c in h.conns && InRoom(h, m, c) && Full(h.conns[c].send)
    requires Broadcast(h, m).Running?
    ensures var h1 := Broadcast(h, m).hub;
            c in h1.conns && h1.conns[c].send.closed && m.taskId in h1.conns[c].rooms
            && !Wf(h1) && Unregister(h1, c) == Crashed
  {
    var r1 := RoomPhase(h, m);
    var h0 := r1.hub;
    assert h0.conns[c].send.closed && h0.conns[c].rooms == h.conns[c].rooms;
    assert c !in h0.rooms[m.taskId];
    if m.userId != "" && m.userId in h0.clients {
      assert c !in h0.clients[m.userId];
    }
    var h1 := Broadcast(h, m).hub;
    assert h1.conns[c] == h0.conns[c];
    assert h1.rooms == h0.rooms;
  }

  /**
    A connection in the task's room that is also one of the author's is
    sent to twice by one broadcast; if its queue is full, the first send
    closes it and the second panics.
   */
  lemma AuthorInRoomCrashes(h: Hub, m: Message, c: ClientId)
    requires c in h.conns && InRoom(h, m, c) && OfAuthor(h, m, c) && Full(h.conns[c].send)
    requires !AnyClosed(h.conns, h.rooms[m.taskId])
    ensures Broadcast(h, m) == Crashed
  {
    var h0 := RoomPhase(h, m).hub;
    assert h0.clients == h.clients;
    assert c in h0.clients[m.userId] && h0.conns[c].send.closed;
  }

  /**
    The repaired broadcast detaches a dropped connection completely: its
    queue is closed with the message lost, it is in no user set and no
    room, and its own list of rooms is empty.
   */
  lemma FixedDropDetaches(h: Hub, m: Message, c: ClientId)
    requires c in h.conns && InRoom(h, m, c) && !h.conns[c].send.closed && Full(h.conns[c].send)
    ensures var r := BroadcastFixed(h, m);
            c in r.conns && r.conns[c] == h.conns[c].(rooms := {}, send := Queue(h.conns[c].send.items, true))
            && !Registered(r, c) && forall t :: t in r.rooms ==> c !in r.rooms[t]
  {
    var h0 := FixedRoomPhase(h, m);
    assert c in OpenMembers(h.conns, h.rooms[m.taskId]);
    assert c in FullMembers(h.conns, OpenMembers(h.conns, h.rooms[m.taskId]));
    assert !Registered(h0, c);
    assert forall t :: t in h0.rooms ==> c !in h0.rooms[t];
    assert c !in OpenMembers(h0.conns, if m.userId in h0.clients then h0.clients[m.userId] else {});
  }

  /** The repaired broadcast never touches a connection whose queue is already closed. */
  lemma FixedSkipsClosed(h: Hub, m: Message, c: ClientId)
    requires c in h.conns && h.conns[c].send.closed
    ensures BroadcastFixed(h, m).conns[c] == h.conns[c]
  {
  }

  /**
    The write pump's receive on `Send`: the oldest buffered frame, in
    order; once the queue is closed and drained there is nothing more
    (the pump then writes a close frame and stops). `None` with an open
    queue means the pump waits.
   */
  function WriteNext(h: Hub, c: ClientId): (r: (Option<Message>, Hub))
    requires c in h.conns
    ensures h.conns[c].send.items != [] ==> r.0 == Some(h.conns[c].send.items[0])
    ensures h.conns[c].send.items != [] ==> c in r.1.conns && r.1.conns[c].send.items == h.conns[c].send.items[1..]
    ensures h.conns[c].send.items == [] ==> r == (None, h)
    ensures r.1.clients == h.clients && r.1.rooms == h.rooms
    ensures c in r.1.conns && r.1.conns[c].send.closed == h.conns[c].send.closed
  {
    var q := h.conns[c].send;
    if q.items == [] then (None, h)
    else (Some(q.items[0]), h.(conns := h.conns[c := h.conns[c].(send := q.(items := q.items[1..]))]))
  }

  /** A message delivered to an idle, open queue is the next frame the write pump sends. */
  lemma DeliveredThenWritten(h: Hub, m: Message, c: ClientId)
    requires c in h.conns && h.conns[c].send == Queue([], false)
    requires (InRoom(h, m, c) || OfAuthor(h, m, c)) && Roomy(h.conns, 2)
    ensures Broadcast(h, m).Running?
    ensures WriteNext(Broadcast(h, m).hub, c).0 == Some(m)
  {
    BroadcastFanOut(h, m);
  }

  /** A consistent hub: user "u" has one connection "c", in room "t", whose queue holds 256 frames. */
  function FullQueueHub(m: Message): (r: Hub)
    ensures "c" in r.conns && Full(r.conns["c"].send) && !r.conns["c"].send.closed
  {
    Hub(map["u" := {"c"}], map["t" := {"c"}], map["c" := Conn("u", {"t"}, Queue(seq(SendCapacity, _ => m), false))])
  }

  /**
    The inputs that show both panics. An update of task "t" by "u" sends
    to "c" twice and crashes the hub; an update by anyone else drops "c",
    and the hub crashes when "c" disconnects. The repaired hub survives
    both and stays consistent.
   */
  lemma FullQueueCounterexamples(m: Message)
    ensures Wf(FullQueueHub(m))
    ensures Broadcast(FullQueueHub(m), Message("task_updated", "t", "", "u", "")) == Crashed
    ensures var b := Broadcast(FullQueueHub(m), Message("task_updated", "t", "", "v", ""));
            b.Running? && Unregister(b.hub, "c") == Crashed
    ensures var b := BroadcastFixed(FullQueueHub(m), Message("task_updated", "t", "", "u", ""));
            Wf(b) && Wf(UnregisterFixed(b, "c"))
  {
    var h := FullQueueHub(m);
    var byU := Message("task_updated", "t", "", "u", "");
    var byV := Message("task_updated", "t", "", "v", "");
    assert InRoom(h, byU, "c") && OfAuthor(h, byU, "c");
    AuthorInRoomCrashes(h, byU, "c");
    assert InRoom(h, byV, "c");
    assert RoomPhase(h, byV).Running?;
    assert !("v" in RoomPhase(h, byV).hub.clients);
    DropThenUnregisterCrashes(h, byV, "c");
    BroadcastFixedKeepsWf(h, byU);
    UnregisterFixedKeepsWf(BroadcastFixed(h, byU), "c");
  }
}
