/** Who is online (gateway.service.ts and gateway.gateway.ts), one handler at a time. */
module Presence {
  type User = string
  type Socket = string

  /** A row of `user_activity`. */
  datatype Activity = Activity(isOnline: bool, connections: int)

  /** The Redis keys of the registry, the database rows, and the presence events emitted
      to followers so far. */
  datatype State = State(
    socketUser: map<Socket, User>, userSockets: map<User, set<Socket>>, online: set<User>, hidden: set<User>,
    rows: map<User, Activity>, events: seq<(User, bool)>)

  const INIT := State(map[], map[], {}, {}, map[], [])

  function Sockets(s: State, u: User): set<Socket> {
    if u in s.userSockets then s.userSockets[u] else {}
  }

  predicate VisiblyOnline(s: State, u: User) { u in s.online && u !in s.hidden }

  // ---------------------------------------------------------------- what the handlers do

  /** A device of `u` connects: followers hear of the first one only. */
  function Connected(s: State, socket: Socket, u: User): State {
    var first := Sockets(s, u) == {};
    var row :=
      if first || u !in s.online then Activity(true, 1)
      else if u in s.rows then s.rows[u].(connections := s.rows[u].connections + 1)
      else Activity(false, 0);
    s.(socketUser := s.socketUser[socket := u],
       userSockets := s.userSockets[u := Sockets(s, u) + {socket}],
       online := s.online + {u},
       rows := if first || u !in s.online || u in s.rows then s.rows[u := row] else s.rows,
       events := if u !in s.online then s.events + [(u, true)] else s.events)
  }

  /** A device disconnects: followers hear of the last one only. */
  function Disconnected(s: State, socket: Socket): State {
    if socket !in s.socketUser then s
    else
      var u := s.socketUser[socket];
      var left := Sockets(s, u) - {socket};
      var cut := s.(socketUser := s.socketUser - {socket}, userSockets := s.userSockets[u := left]);
      if left == {} then
        cut.(online := s.online - {u}, rows := s.rows[u := Activity(false, 0)], events := s.events + [(u, false)])
      else if u in s.rows then
        cut.(rows := s.rows[u := s.rows[u].(connections := s.rows[u].connections - 1)])
      else cut
  }

  /** `u` switches "appear offline": the followers are told what they should now see. */
  function Hidden(s: State, u: User, hiding: bool): State {
    s.(hidden := if hiding then s.hidden + {u} else s.hidden - {u},
       rows := if u in s.rows then s.rows else s.rows[u := Activity(false, 0)],
       events := s.events + [(u, u in s.online && !hiding)])
  }

  datatype Op = Connect(socket: Socket, u: User) | Disconnect(socket: Socket) | Hide(u: User, hiding: bool)

  function Apply(s: State, op: Op): State {
    match op
    case Connect(socket, u) => Connected(s, socket, u)
    case Disconnect(socket) => Disconnected(s, socket)
    case Hide(u, hiding) => Hidden(s, u, hiding)
  }

  /** Socket ids are fresh: no id connects while it is still registered. */
  predicate Legal(ops: seq<Op>)
    decreases |ops|, 0
  {
    ops == [] ||
    var before, op := ops[..|ops| - 1], ops[|ops| - 1];
    Legal(before) && (op.Connect? ==> op.socket !in After(before).socketUser)
  }

  function After(ops: seq<Op>): State
    requires Legal(ops)
    decreases |ops|, 1
  {
    if ops == [] then INIT else Apply(After(ops[..|ops| - 1]), ops[|ops| - 1])
  }

  // ---------------------------------------------------------------- the registry

  ghost predicate RegistryOf(s: State, u: User) {
    && (forall socket :: socket in Sockets(s, u) <==> socket in s.socketUser && s.socketUser[socket] == u)
    && (u in s.online <==> Sockets(s, u) != {})
    && (u in s.rows ==> s.rows[u] == Activity(u in s.online, |Sockets(s, u)|))
    && (u !in s.rows ==> Sockets(s, u) == {})
  }

  ghost predicate Registry(s: State) {
    forall u :: RegistryOf(s, u)
  }

  lemma ConnectKeepsRegistry(s: State, socket: Socket, v: User, u: User)
    requires RegistryOf(s, u) && socket !in s.socketUser
    ensures RegistryOf(Connected(s, socket, v), u)
  {
    var t := Connected(s, socket, v);
    if u == v {
      assert Sockets(t, u) == Sockets(s, u) + {socket} && socket !in Sockets(s, u);
      assert u in t.rows && t.rows[u] == Activity(true, |Sockets(s, u)| + 1);
    } else {
      assert Sockets(t, u) == Sockets(s, u);
      assert u in t.rows <==> u in s.rows;
    }
  }

  lemma OwnDisconnectKeepsRegistry(s: State, socket: Socket, u: User)
    requires RegistryOf(s, u) && socket in s.socketUser && s.socketUser[socket] == u
    ensures RegistryOf(Disconnected(s, socket), u)
  {
    var t := Disconnected(s, socket);
    assert Sockets(t, u) == Sockets(s, u) - {socket} && socket in Sockets(s, u);
    assert |Sockets(t, u)| == |Sockets(s, u)| - 1;
    assert u in s.online && u in s.rows && s.rows[u] == Activity(true, |Sockets(s, u)|);
    if Sockets(t, u) == {} {
      assert t.rows[u] == Activity(false, 0);
    } else {
      assert t.rows[u] == Activity(true, |Sockets(t, u)|);
    }
  }

  lemma OtherDisconnectKeepsRegistry(s: State, socket: Socket, u: User)
    requires RegistryOf(s, u) && socket in s.socketUser && s.socketUser[socket] != u
    ensures RegistryOf(Disconnected(s, socket), u)
  {
    var t := Disconnected(s, socket);
    assert Sockets(t, u) == Sockets(s, u);
    assert u in t.rows <==> u in s.rows;
    assert u in t.online <==> u in s.online;
  }

  lemma DisconnectKeepsRegistry(s: State, socket: Socket, u: User)
    requires RegistryOf(s, u)
    ensures RegistryOf(Disconnected(s, socket), u)
  {
    if socket in s.socketUser {
      if s.socketUser[socket] == u {
        OwnDisconnectKeepsRegistry(s, socket, u);
      } else {
        OtherDisconnectKeepsRegistry(s, socket, u);
      }
    }
  }

  lemma RegistryStep(s: State, op: Op, u: User)
    requires RegistryOf(s, u) && (op.Connect? ==> op.socket !in s.socketUser)
    ensures RegistryOf(Apply(s, op), u)
  {
    match op
    case Connect(socket, v) => ConnectKeepsRegistry(s, socket, v, u);
    case Disconnect(socket) => DisconnectKeepsRegistry(s, socket, u);
    case Hide(_, _) => assert Sockets(Apply(s, op), u) == Sockets(s, u);
  }

  /** In every run: the two socket maps are inverse to each other, a user is in the online
      set exactly while some socket is left, and the database counts those sockets. */
  lemma {:induction false} RegistryAlwaysAgrees(ops: seq<Op>)
    requires Legal(ops)
    ensures Registry(After(ops))
    decreases |ops|
  {
    if ops != [] {
      var before := ops[..|ops| - 1];
      RegistryAlwaysAgrees(before);
      forall u ensures RegistryOf(After(ops), u) {
        RegistryStep(After(before), ops[|ops| - 1], u);
      }
    }
  }

  // ---------------------------------------------------------------- what followers hear

  /** The events about `u`, in order. */
  function EventsOf(events: seq<(User, bool)>, u: User): seq<bool> {
    if events == [] then []
    else
      var last := events[|events| - 1];
      EventsOf(events[..|events| - 1], u) + (if last.0 == u then [last.1] else [])
  }

  /** What a handler tells the followers of `u`. */
  function Announced(s: State, op: Op, u: User): seq<bool> {
    match op
    case Connect(_, v) => if v == u && u !in s.online then [true] else []
    case Disconnect(socket) =>
      if socket in s.socketUser && s.socketUser[socket] == u && Sockets(s, u) - {socket} == {} then [false] else []
    case Hide(v, hiding) => if v == u then [u in s.online && !hiding] else []
  }

  lemma EventsOfStep(s: State, op: Op, u: User)
    ensures EventsOf(Apply(s, op).events, u) == EventsOf(s.events, u) + Announced(s, op, u)
  {
    var t := Apply(s, op);
    if t.events != s.events {
      assert t.events[..|s.events|] == s.events && |t.events| == |s.events| + 1;
    }
  }

  /** What a follower who listened to every event believes about `u`. */
  function Believed(s: State, u: User): bool {
    Last(EventsOf(s.events, u))
  }

  lemma LastAppended(heard: seq<bool>, more: seq<bool>)
    requires |more| <= 1
    ensures Last(heard + more) == if more == [] then Last(heard) else more[0]
  {
    if more == [] {
      assert heard + more == heard;
    }
  }

  lemma OneAtMost(s: State, op: Op, u: User)
    ensures |Announced(s, op, u)| <= 1
  {
  }

  lemma BelievedStep(s: State, op: Op, u: User)
    ensures Believed(Apply(s, op), u) == if Announced(s, op, u) == [] then Believed(s, u) else Announced(s, op, u)[0]
  {
    EventsOfStep(s, op, u);
    OneAtMost(s, op, u);
    LastAppended(EventsOf(s.events, u), Announced(s, op, u));
  }

  /** An announcement says what has just become true, and silence means no change. */
  lemma AnnouncedTruth(s: State, op: Op, u: User)
    requires RegistryOf(s, u) && !op.Hide?
    ensures Announced(s, op, u) == if (u in Apply(s, op).online) == (u in s.online) then [] else [u in Apply(s, op).online]
  {
  }

  ghost predicate Alternates(heard: seq<bool>) {
    forall i :: 0 <= i < |heard| ==> heard[i] == (i % 2 == 0)
  }

  function Last(heard: seq<bool>): bool {
    heard != [] && heard[|heard| - 1]
  }

  lemma AlternatesStep(heard: seq<bool>, more: seq<bool>, was: bool, now: bool)
    requires Alternates(heard) && Last(heard) == was
    requires more == if now == was then [] else [now]
    ensures Alternates(heard + more) && Last(heard + more) == now
  {
    assert |heard| > 0 ==> heard[|heard| - 1] == ((|heard| - 1) % 2 == 0);
    assert now == was ==> heard + more == heard;
  }

  predicate NoToggles(ops: seq<Op>) {
    forall i :: 0 <= i < |ops| ==> !ops[i].Hide?
  }

  /** Without "appear offline", the events about a user are online, offline, online, ...
      and the last one is the truth. */
  lemma {:induction false} BroadcastsAlternate(ops: seq<Op>, u: User)
    requires Legal(ops) && NoToggles(ops)
    ensures Alternates(EventsOf(After(ops).events, u))
    ensures Believed(After(ops), u) == (u in After(ops).online)
    decreases |ops|
  {
    if ops != [] {
      var before, op := ops[..|ops| - 1], ops[|ops| - 1];
      var s := After(before);
      BroadcastsAlternate(before, u);
      RegistryAlwaysAgrees(before);
      assert RegistryOf(s, u) && !op.Hide?;
      EventsOfStep(s, op, u);
      AnnouncedTruth(s, op, u);
      AlternatesStep(EventsOf(s.events, u), Announced(s, op, u), u in s.online, u in Apply(s, op).online);
    }
  }

  /** `u` came online while appearing offline and nothing since has put that right. */
  ghost predicate Exposed(ops: seq<Op>, u: User)
    requires Legal(ops)
    decreases |ops|
  {
    ops != [] &&
    var before, op := ops[..|ops| - 1], ops[|ops| - 1];
    var s := After(before);
    match op
    case Connect(_, v) => if v == u && Sockets(s, u) == {} then u in s.hidden else Exposed(before, u)
    case Disconnect(socket) => if Sockets(s, u) == {socket} then false else Exposed(before, u)
    case Hide(v, _) => v != u && Exposed(before, u)
  }

  /** How one handler changes what followers should see of `u` and what they believe. */
  lemma BeliefStep(s: State, op: Op, u: User)
    requires RegistryOf(s, u) && (op.Connect? ==> op.socket !in s.socketUser)
    ensures var t := Apply(s, op);
      match op
      case Connect(_, v) =>
        if v == u && Sockets(s, u) == {} then u in t.online && Believed(t, u) && (u in t.hidden <==> u in s.hidden)
        else Believed(t, u) == Believed(s, u) && (u in t.online <==> u in s.online) && (u in t.hidden <==> u in s.hidden)
      case Disconnect(socket) =>
        if Sockets(s, u) == {socket} then u !in t.online && !Believed(t, u)
        else Believed(t, u) == Believed(s, u) && (u in t.online <==> u in s.online) && (u in t.hidden <==> u in s.hidden)
      case Hide(v, _) =>
        if v == u then Believed(t, u) == VisiblyOnline(t, u)
        else Believed(t, u) == Believed(s, u) && (u in t.online <==> u in s.online) && (u in t.hidden <==> u in s.hidden)
  {
    BelievedStep(s, op, u);
    if op.Disconnect? {
      assert Sockets(s, u) == {op.socket} ==> op.socket in Sockets(s, u);
      assert op.socket in s.socketUser && s.socketUser[op.socket] == u && Sockets(s, u) - {op.socket} == {} ==>
        op.socket in Sockets(s, u) && Sockets(s, u) == {op.socket};
    }
  }

  /** With "appear offline" in play, followers believe what `isUserVisiblyOnline` answers
      exactly when the user did not come online while hidden: a first connection is
      announced without looking at the flag. */
  lemma {:induction false} BelievedUnlessExposed(ops: seq<Op>, u: User)
    requires Legal(ops)
    ensures Believed(After(ops), u) == VisiblyOnline(After(ops), u) <==> !Exposed(ops, u)
    ensures Exposed(ops, u) ==> u in After(ops).online && u in After(ops).hidden
    decreases |ops|
  {
    if ops != [] {
      var before, op := ops[..|ops| - 1], ops[|ops| - 1];
      BelievedUnlessExposed(before, u);
      RegistryAlwaysAgrees(before);
      assert RegistryOf(After(before), u);
      BeliefStep(After(before), op, u);
    }
  }

  /** It does happen: appear offline, leave, come back. */
  lemma ExposureHappens()
    ensures exists ops, u :: Legal(ops) && Believed(After(ops), u) && !VisiblyOnline(After(ops), u)
  {
    var u: User, socket: Socket := "u", "s";
    var ops := [Hide(u, true), Connect(socket, u)];
    var one := ops[..1];
    assert one[..0] == [] && Legal(one[..0]) && Legal(one) && ops[..|ops| - 1] == one && Legal(ops);
    BelievedStep(After(one), ops[1], u);
    var s := After(one);
    assert After(one[..0]) == INIT && s == Hidden(INIT, u, true) && After(ops) == Connected(s, socket, u);
    assert u in s.hidden && u !in s.online;
    assert Believed(After(ops), u) && !VisiblyOnline(After(ops), u);
  }

  // ---------------------------------------------------------------- who is visibly online

  /** `on` happened and `off` has not happened since. */
  ghost predicate Standing(ops: seq<Op>, on: Op, off: Op) {
    exists i :: 0 <= i < |ops| && ops[i] == on && forall k | i < k < |ops| :: ops[k] != off
  }

  lemma StandingStep(ops: seq<Op>, on: Op, off: Op)
    requires ops != [] && on != off
    ensures Standing(ops, on, off) <==>
      ops[|ops| - 1] == on || (Standing(ops[..|ops| - 1], on, off) && ops[|ops| - 1] != off)
  {
    var before, last := ops[..|ops| - 1], ops[|ops| - 1];
    if Standing(before, on, off) && last != off {
      var i :| 0 <= i < |before| && before[i] == on && forall k | i < k < |before| :: before[k] != off;
      assert ops[i] == on && forall k | i < k < |ops| :: ops[k] != off;
    }
    if Standing(ops, on, off) && last != on {
      var i :| 0 <= i < |ops| && ops[i] == on && forall k | i < k < |ops| :: ops[k] != off;
      assert before[i] == on && forall k | i < k < |before| :: before[k] != off;
    }
  }

  /** Hiding hides, showing shows, and neither touches anybody else. */
  lemma HidingHides(s: State, u: User, v: User)
    ensures !VisiblyOnline(Apply(s, Hide(u, true)), u)
    ensures VisiblyOnline(Apply(s, Hide(u, false)), u) <==> u in s.online
    ensures v != u ==> forall hiding :: VisiblyOnline(Apply(s, Hide(u, hiding)), v) <==> VisiblyOnline(s, v)
  {
  }

  lemma {:induction false} HiddenSinceHiding(ops: seq<Op>, u: User)
    requires Legal(ops)
    ensures u in After(ops).hidden <==> Standing(ops, Hide(u, true), Hide(u, false))
    decreases |ops|
  {
    if ops != [] {
      HiddenSinceHiding(ops[..|ops| - 1], u);
      StandingStep(ops, Hide(u, true), Hide(u, false));
    }
  }

  lemma {:induction false} RegisteredSinceConnecting(ops: seq<Op>, socket: Socket, u: User)
    requires Legal(ops)
    ensures socket in After(ops).socketUser && After(ops).socketUser[socket] == u
      <==> Standing(ops, Connect(socket, u), Disconnect(socket))
    decreases |ops|
  {
    if ops != [] {
      RegisteredSinceConnecting(ops[..|ops| - 1], socket, u);
      StandingStep(ops, Connect(socket, u), Disconnect(socket));
    }
  }

  /** In every run a user is visibly online exactly when some device has connected and not
      disconnected since, and the user has not gone into hiding and stayed there. */
  lemma VisiblyOnlineExactlyWhen(ops: seq<Op>, u: User)
    requires Legal(ops)
    ensures VisiblyOnline(After(ops), u) <==>
      && (exists socket :: Standing(ops, Connect(socket, u), Disconnect(socket)))
      && !Standing(ops, Hide(u, true), Hide(u, false))
  {
    var s := After(ops);
    RegistryAlwaysAgrees(ops);
    assert RegistryOf(s, u);
    HiddenSinceHiding(ops, u);
    forall socket ensures socket in Sockets(s, u) <==> Standing(ops, Connect(socket, u), Disconnect(socket)) {
      RegisteredSinceConnecting(ops, socket, u);
    }
    assert Sockets(s, u) != {} <==> exists socket :: socket in Sockets(s, u);
  }

  // ---------------------------------------------------------------- the gateway

  ghost function SocketsIn(userSockets: map<User, set<Socket>>, u: User): set<Socket> {
    set socket | u in userSockets && socket in userSockets[u]
  }

  /** The user has no other device. */
  ghost predicate LastSocket(userSockets: map<User, set<Socket>>, u: User, socket: Socket) {
    forall other | other in SocketsIn(userSockets, u) :: other == socket
  }

  lemma SocketsAre(s: State, u: User, socket: Socket)
    ensures SocketsIn(s.userSockets, u) == Sockets(s, u)
    ensures LastSocket(s.userSockets, u, socket) <==> Sockets(s, u) - {socket} == {}
  {
    assert SocketsIn(s.userSockets, u) == Sockets(s, u);
    if LastSocket(s.userSockets, u, socket) {
      assert forall other | other in Sockets(s, u) :: other in SocketsIn(s.userSockets, u);
      assert Sockets(s, u) - {socket} == {};
    } else {
      var other :| other in SocketsIn(s.userSockets, u) && other != socket;
      assert other in Sockets(s, u) - {socket};
    }
  }

  class Gateway {
    var socketUser: map<Socket, User>
    var userSockets: map<User, set<Socket>>
    var online: set<User>
    var hidden: set<User>
    var rows: map<User, Activity>
    ghost var events: seq<(User, bool)>

    ghost function Now(): State
      reads this
    {
      State(socketUser, userSockets, online, hidden, rows, events)
    }

    constructor ()
      ensures Now() == INIT
    {
      socketUser, userSockets, online, hidden, rows := map[], map[], {}, {}, map[];
      events := [];
    }

    method Smembers(u: User) returns (r: set<Socket>)
      ensures r == Sockets(Now(), u)
      ensures u !in userSockets ==> r == {}
      ensures u in userSockets ==> r == userSockets[u]
    {
      r := if u in userSockets then userSockets[u] else {};
    }

    method UpdateUserActivityDb(u: User, isOnline: bool)
      modifies `rows
      ensures rows == old(rows)[u := Activity(isOnline, if isOnline then 1 else 0)]
    {
      rows := rows[u := Activity(isOnline, if isOnline then 1 else 0)];
    }

    method AddToConnectionCount(u: User, delta: int)
      modifies `rows
      ensures rows == if u in old(rows)
        then old(rows)[u := old(rows)[u].(connections := old(rows)[u].connections + delta)] else old(rows)
    {
      if u in rows {
        rows := rows[u := rows[u].(connections := rows[u].connections + delta)];
      }
    }

    method RegisterSocket(socket: Socket, u: User)
      modifies `socketUser, `userSockets, `online, `rows
      ensures socketUser == old(socketUser)[socket := u]
      ensures userSockets == old(userSockets)[u := old(Sockets(Now(), u)) + {socket}]
      ensures online == old(online) + {u}
      ensures old(Sockets(Now(), u)) == {} ==> rows == old(rows)[u := Activity(true, 1)]
      ensures old(Sockets(Now(), u)) != {} ==> rows == if u in old(rows)
        then old(rows)[u := old(rows)[u].(connections := old(rows)[u].connections + 1)] else old(rows)
    {
      var existing := Smembers(u);
      socketUser := socketUser[socket := u];
      userSockets := userSockets[u := existing + {socket}];
      online := online + {u};
      if existing == {} {
        UpdateUserActivityDb(u, true);
      } else {
        AddToConnectionCount(u, 1);
      }
    }

    /** Returns whether the user went offline, for a socket that was registered. */
    method UnregisterSocket(socket: Socket) returns (wentOffline: bool)
      modifies `socketUser, `userSockets, `online, `rows
      ensures var t := Disconnected(old(Now()), socket);
        && Now() == t.(events := old(events))
        && wentOffline == (t.events != old(events))
      ensures wentOffline <==> socket in old(socketUser) && LastSocket(old(userSockets), old(socketUser)[socket], socket)
    {
      if socket !in socketUser {
        return false;
      }
      var u := socketUser[socket];
      SocketsAre(Now(), u, socket);
      var sockets := Smembers(u);
      userSockets := userSockets[u := sockets - {socket}];
      socketUser := socketUser - {socket};
      var remaining := Smembers(u);
      wentOffline := remaining == {};
      if wentOffline {
        online := online - {u};
        UpdateUserActivityDb(u, false);
      } else {
        AddToConnectionCount(u, -1);
      }
    }

    method SetUserOnline(u: User)
      modifies `online, `rows, `events
      ensures online == old(online) + {u} && rows == old(rows)[u := Activity(true, 1)]
      ensures events == old(events) + [(u, true)]
    {
      online := online + {u};
      UpdateUserActivityDb(u, true);
      events := events + [(u, true)];
    }

    method SetUserOffline(u: User)
      modifies `online, `rows, `events
      ensures online == old(online) - {u} && rows == old(rows)[u := Activity(false, 0)]
      ensures events == old(events) + [(u, false)]
    {
      online := online - {u};
      UpdateUserActivityDb(u, false);
      events := events + [(u, false)];
    }

    method SetAppearOffline(u: User, hiding: bool)
      modifies `hidden, `rows, `events
      ensures Now() == Hidden(old(Now()), u, hiding)
      ensures u in hidden <==> hiding
      ensures forall v | v != u :: v in hidden <==> v in old(hidden)
      ensures events == old(events) + [(u, u in online && !(u in hidden))]
      ensures rows == if u in old(rows) then old(rows) else old(rows)[u := Activity(false, 0)]
    {
      hidden := if hiding then hidden + {u} else hidden - {u};
      if u !in rows {
        rows := rows[u := Activity(false, 0)];
      }
      events := events + [(u, u in online && !hiding)];
    }

    method HandleConnection(socket: Socket, u: User)
      modifies this
      ensures Now() == Connected(old(Now()), socket, u)
      ensures socketUser == old(socketUser)[socket := u] && hidden == old(hidden)
      ensures userSockets == old(userSockets)[u := SocketsIn(old(userSockets), u) + {socket}]
      ensures online == old(online) + {u}
      ensures events == old(events) + if u in old(online) then [] else [(u, true)]
      ensures !(u in old(online)) || SocketsIn(old(userSockets), u) == {} ==> rows == old(rows)[u := Activity(true, 1)]
      ensures u in old(online) && SocketsIn(old(userSockets), u) != {} && u in old(rows) ==>
        rows == old(rows)[u := old(rows)[u].(connections := old(rows)[u].connections + 1)]
    {
      SocketsAre(Now(), u, socket);
      var wasOffline := u !in online;
      RegisterSocket(socket, u);
      if wasOffline {
        SetUserOnline(u);
      }
      assert rows == Connected(old(Now()), socket, u).rows;
    }

    /** `u` is the user attached to the client when it was authenticated. */
    method HandleDisconnect(socket: Socket, u: User)
      requires socket in socketUser ==> socketUser[socket] == u
      modifies this
      ensures Now() == Disconnected(old(Now()), socket)
      ensures socket !in old(socketUser) ==> Now() == old(Now())
      ensures socketUser == old(socketUser) - {socket} && hidden == old(hidden)
      ensures socket in old(socketUser) ==> userSockets == old(userSockets)[u := SocketsIn(old(userSockets), u) - {socket}]
      ensures socket in old(socketUser) && LastSocket(old(userSockets), u, socket) ==>
        online == old(online) - {u} && events == old(events) + [(u, false)] && rows == old(rows)[u := Activity(false, 0)]
      ensures socket in old(socketUser) && !LastSocket(old(userSockets), u, socket) ==>
        online == old(online) && events == old(events)
      ensures socket in old(socketUser) && !LastSocket(old(userSockets), u, socket) && u in old(rows) ==>
        rows == old(rows)[u := old(rows)[u].(connections := old(rows)[u].connections - 1)]
    {
      SocketsAre(Now(), u, socket);
      var wentOffline := UnregisterSocket(socket);
      if wentOffline {
        SetUserOffline(u);
      }
      assert rows == Disconnected(old(Now()), socket).rows;
    }
  }
}
