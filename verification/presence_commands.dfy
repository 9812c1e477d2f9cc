/** The same registry when the Redis commands of different handlers interleave
    (gateway.service.ts, gateway.gateway.ts): only the two handlers of one socket keep
    their order, because a socket disconnects after its own connection was handled. */
module PresenceCommands {
  type User = string
  type Socket = string

  /** Where the handlers of a socket are. While registering, three writes are in flight
      together and land in any order; `first` is what the handler read of the online set
      before. */
  datatype Phase =
    | Arrived(u: User)
    | Registering(u: User, first: bool, mapped: bool, added: bool, online: bool)
    | Registered(u: User)
    | Leaving(u: User)
    | Unlinking(u: User)
    | Unmapping(u: User)
    | Counting(u: User)
    | GoingOffline(u: User, times: nat)
    | Gone

  datatype State = State(
    socketUser: map<Socket, User>, userSockets: map<User, set<Socket>>, online: set<User>, phases: map<Socket, Phase>)

  datatype Event =
    | Arrive(socket: Socket, u: User)
    | ReadOnline(socket: Socket)
    | WriteMapping(socket: Socket)
    | WriteSet(socket: Socket)
    | WriteOnline(socket: Socket)
    | EndConnect(socket: Socket)
    | Leave(socket: Socket)
    | Proceed(socket: Socket)

  const INIT := State(map[], map[], {}, map[])

  function Sockets(s: State, u: User): set<Socket> {
    if u in s.userSockets then s.userSockets[u] else {}
  }

  predicate Enabled(s: State, e: Event) {
    if e.Arrive? then e.socket !in s.phases
    else
      e.socket in s.phases &&
      var phase := s.phases[e.socket];
      match e
      case ReadOnline(_) => phase.Arrived?
      case WriteMapping(_) => phase.Registering? && !phase.mapped
      case WriteSet(_) => phase.Registering? && !phase.added
      case WriteOnline(_) => phase.Registering? && !phase.online
      case EndConnect(_) => phase.Registering? && phase.mapped && phase.added && phase.online
      case Leave(_) => phase.Registered?
      case Proceed(_) => phase.Leaving? || phase.Unlinking? || phase.Unmapping? || phase.Counting? || phase.GoingOffline?
      case Arrive(_, _) => false
  }

  function Next(s: State, e: Event): State
    requires Enabled(s, e)
  {
    var k := e.socket;
    match e
    case Arrive(_, u) => s.(phases := s.phases[k := Arrived(u)])
    case ReadOnline(_) =>
      var u := s.phases[k].u;
      s.(phases := s.phases[k := Registering(u, u !in s.online, false, false, false)])
    case WriteMapping(_) =>
      s.(socketUser := s.socketUser[k := s.phases[k].u], phases := s.phases[k := s.phases[k].(mapped := true)])
    case WriteSet(_) =>
      var u := s.phases[k].u;
      s.(userSockets := s.userSockets[u := Sockets(s, u) + {k}], phases := s.phases[k := s.phases[k].(added := true)])
    case WriteOnline(_) =>
      s.(online := s.online + {s.phases[k].u}, phases := s.phases[k := s.phases[k].(online := true)])
    case EndConnect(_) =>
      // the first device is put into the online set once more
      s.(online := if s.phases[k].first then s.online + {s.phases[k].u} else s.online,
         phases := s.phases[k := Registered(s.phases[k].u)])
    case Leave(_) => s.(phases := s.phases[k := Leaving(s.phases[k].u)])
    case Proceed(_) => Unregister(s, k)
  }

  /** The commands of `unregisterSocket` and `setUserOffline`, one at a time: GET, SREM,
      DEL, SMEMBERS, and SREM of the online set twice if no socket was left. */
  function Unregister(s: State, k: Socket): State
    requires Enabled(s, Proceed(k))
  {
    match s.phases[k]
    case Leaving(u) =>
      s.(phases := s.phases[k := if k in s.socketUser then Unlinking(s.socketUser[k]) else Gone])
    case Unlinking(u) =>
      s.(userSockets := s.userSockets[u := Sockets(s, u) - {k}], phases := s.phases[k := Unmapping(u)])
    case Unmapping(u) =>
      s.(socketUser := s.socketUser - {k}, phases := s.phases[k := Counting(u)])
    case Counting(u) =>
      s.(phases := s.phases[k := if Sockets(s, u) == {} then GoingOffline(u, 2) else Gone])
    case GoingOffline(u, n) =>
      s.(online := s.online - {u}, phases := s.phases[k := if n > 1 then GoingOffline(u, n - 1) else Gone])
  }

  ghost predicate Legal(evs: seq<Event>)
    decreases |evs|, 0
  {
    evs == [] || (Legal(evs[..|evs| - 1]) && Enabled(After(evs[..|evs| - 1]), evs[|evs| - 1]))
  }

  ghost function After(evs: seq<Event>): State
    requires Legal(evs)
    decreases |evs|, 1
  {
    if evs == [] then INIT else Next(After(evs[..|evs| - 1]), evs[|evs| - 1])
  }

  // ---------------------------------------------------------------- the two maps

  /** The user to whom the forward map should send a socket in this phase. */
  function MappedTo(phase: Phase): set<User> {
    match phase
    case Registering(u, _, mapped, _, _) => if mapped then {u} else {}
    case Registered(u) => {u}
    case Leaving(u) => {u}
    case Unlinking(u) => {u}
    case Unmapping(u) => {u}
    case _ => {}
  }

  /** The users whose socket sets should hold a socket in this phase. */
  function MemberOf(phase: Phase): set<User> {
    match phase
    case Registering(u, _, _, added, _) => if added then {u} else {}
    case Registered(u) => {u}
    case Leaving(u) => {u}
    case Unlinking(u) => {u}
    case _ => {}
  }

  ghost predicate SocketInv(s: State, k: Socket) {
    var phase := if k in s.phases then s.phases[k] else Gone;
    && (forall u :: k in s.socketUser && s.socketUser[k] == u <==> u in MappedTo(phase))
    && (forall u :: k in Sockets(s, u) <==> u in MemberOf(phase))
  }

  /** A command of one socket leaves the entries of every other socket alone. */
  lemma OthersUnmoved(s: State, e: Event, k: Socket)
    requires Enabled(s, e) && k != e.socket
    ensures var t := Next(s, e);
      && (k in t.phases <==> k in s.phases) && (k in s.phases ==> t.phases[k] == s.phases[k])
      && (k in t.socketUser <==> k in s.socketUser) && (k in s.socketUser ==> t.socketUser[k] == s.socketUser[k])
      && forall u :: k in Sockets(t, u) <==> k in Sockets(s, u)
  {
    match e
    case Proceed(_) => match s.phases[e.socket] { case _ => }
    case _ =>
  }

  lemma ConnectStepKeeps(s: State, e: Event)
    requires SocketInv(s, e.socket) && Enabled(s, e) && !e.Proceed?
    ensures SocketInv(Next(s, e), e.socket)
  {
    var t, k := Next(s, e), e.socket;
    assert forall u :: k in Sockets(t, u) <==> k in Sockets(s, u) || (e.WriteSet? && u == s.phases[k].u);
  }

  lemma ProceedKeeps(s: State, k: Socket)
    requires SocketInv(s, k) && Enabled(s, Proceed(k))
    ensures SocketInv(Unregister(s, k), k)
  {
    var t := Unregister(s, k);
    var phase := s.phases[k];
    assert phase.Leaving? ==> phase.u in MappedTo(phase);
    assert forall u :: k in Sockets(t, u) <==> k in Sockets(s, u) && !(phase.Unlinking? && u == phase.u);
  }

  lemma SocketInvStep(s: State, e: Event, k: Socket)
    requires SocketInv(s, k) && Enabled(s, e)
    ensures SocketInv(Next(s, e), k)
  {
    if k != e.socket {
      OthersUnmoved(s, e, k);
    } else if e.Proceed? {
      ProceedKeeps(s, k);
    } else {
      ConnectStepKeeps(s, e);
    }
  }

  lemma {:induction false} SocketInvRun(evs: seq<Event>)
    requires Legal(evs)
    ensures forall k :: SocketInv(After(evs), k)
    decreases |evs|
  {
    if evs != [] {
      var before := evs[..|evs| - 1];
      SocketInvRun(before);
      forall k ensures SocketInv(After(evs), k) {
        SocketInvStep(After(before), evs[|evs| - 1], k);
      }
    }
  }

  predicate Settled(s: State, k: Socket) {
    k !in s.phases || s.phases[k].Registered? || s.phases[k].Gone?
  }

  /** However the commands of all sockets interleave: for a socket with no handler in
      flight the two maps agree, and a registered one belongs to the user it came for. */
  lemma MapsAgree(evs: seq<Event>, k: Socket)
    requires Legal(evs) && Settled(After(evs), k)
    ensures var s := After(evs);
      && (forall u :: k in s.socketUser && s.socketUser[k] == u <==> k in Sockets(s, u))
      && (k in s.phases && s.phases[k].Registered? ==> k in s.socketUser && s.socketUser[k] == s.phases[k].u)
  {
    SocketInvRun(evs);
    assert SocketInv(After(evs), k);
  }

  // ---------------------------------------------------------------- the online set

  /** The socket is, or is about to be, a device of `u`, or its departure has not yet taken
      `u` out of the online set. */
  predicate Answers(phase: Phase, u: User) {
    match phase
    case Arrived(_) => false
    case Registering(v, _, _, added, online) => v == u && (added || online)
    case Gone => false
    case _ => phase.u == u
  }

  ghost predicate Answered(s: State, u: User) {
    u in s.online ==> exists k :: k in s.phases && Answers(s.phases[k], u)
  }

  /** A socket that answers for `u` goes on doing so, until it finds another device or takes
      `u` out of the online set. */
  lemma StillAnswers(s: State, e: Event, u: User)
    requires Enabled(s, e) && SocketInv(s, e.socket) && e.socket in s.phases && Answers(s.phases[e.socket], u)
    ensures var t := Next(s, e);
      Answers(t.phases[e.socket], u) || u !in t.online || (s.phases[e.socket].Counting? && Sockets(s, u) != {})
  {
    if e.Proceed? && s.phases[e.socket].Leaving? {
      assert u in MappedTo(s.phases[e.socket]);
    }
  }

  lemma AnsweredStep(s: State, e: Event, u: User)
    requires Enabled(s, e) && Answered(s, u) && forall k :: SocketInv(s, k)
    ensures Answered(Next(s, e), u)
  {
    var t := Next(s, e);
    if u in t.online {
      if u !in s.online {
        assert Answers(t.phases[e.socket], u);
      } else {
        var k :| k in s.phases && Answers(s.phases[k], u);
        if k != e.socket {
          OthersUnmoved(s, e, k);
          assert Answers(t.phases[k], u);
        } else {
          StillAnswers(s, e, u);
          if !Answers(t.phases[k], u) {
            var other := AnotherDevice(s, k, u);
            OthersUnmoved(s, e, other);
          }
        }
      }
    }
  }

  lemma AnotherDevice(s: State, k: Socket, u: User) returns (other: Socket)
    requires (forall x :: SocketInv(s, x)) && k in s.phases && s.phases[k].Counting? && Sockets(s, u) != {}
    ensures other != k && other in s.phases && Answers(s.phases[other], u)
  {
    other :| other in Sockets(s, u);
    assert SocketInv(s, other) && SocketInv(s, k);
    assert u in MemberOf(if other in s.phases then s.phases[other] else Gone);
  }

  lemma {:induction false} AnsweredRun(evs: seq<Event>, u: User)
    requires Legal(evs)
    ensures Answered(After(evs), u)
    decreases |evs|
  {
    if evs != [] {
      var before := evs[..|evs| - 1];
      AnsweredRun(before, u);
      SocketInvRun(before);
      AnsweredStep(After(before), evs[|evs| - 1], u);
    }
  }

  /** Whatever the interleaving, once every handler has finished nobody is shown online
      without a device. */
  lemma NobodyIsLeftOnline(evs: seq<Event>, u: User)
    requires Legal(evs) && forall k :: Settled(After(evs), k)
    ensures u in After(evs).online ==> Sockets(After(evs), u) != {}
  {
    var s := After(evs);
    AnsweredRun(evs, u);
    SocketInvRun(evs);
    if u in s.online {
      var k :| k in s.phases && Answers(s.phases[k], u);
      assert Settled(s, k) && SocketInv(s, k);
      assert u in MemberOf(s.phases[k]);
      assert k in Sockets(s, u);
    }
  }

  /** SADD online:users of an arriving device of `u`. */
  predicate Adds(s: State, e: Event, u: User) {
    Enabled(s, e) && (e.WriteOnline? || (e.EndConnect? && s.phases[e.socket].first)) && s.phases[e.socket].u == u
  }

  /** SREM online:users of a departing device of `u`. */
  predicate Removes(s: State, e: Event, u: User) {
    Enabled(s, e) && e.Proceed? && s.phases[e.socket].GoingOffline? && s.phases[e.socket].u == u
  }

  /** Of the commands on the online set that concern `u` the last one was a departing
      device's SREM: it came after every SADD, those of the devices that stayed included. */
  ghost predicate Overtaken(evs: seq<Event>, u: User)
    requires Legal(evs)
    decreases |evs|
  {
    evs != [] &&
    var before, e := evs[..|evs| - 1], evs[|evs| - 1];
    Removes(After(before), e, u) || (!Adds(After(before), e, u) && Overtaken(before, u))
  }

  predicate WasAdded(phase: Phase, u: User) {
    ((phase.Registering? && phase.online) || phase.Registered?) && phase.u == u
  }

  lemma OnlineStep(s: State, e: Event, u: User)
    requires Enabled(s, e)
    ensures u in Next(s, e).online <==> Adds(s, e, u) || (u in s.online && !Removes(s, e, u))
    ensures !Adds(s, e, u) && e.socket in Next(s, e).phases && WasAdded(Next(s, e).phases[e.socket], u) ==>
      e.socket in s.phases && WasAdded(s.phases[e.socket], u)
  {
  }

  lemma {:induction false} OvertakenIsOffline(evs: seq<Event>, u: User)
    requires Legal(evs)
    ensures Overtaken(evs, u) ==> u !in After(evs).online
    decreases |evs|
  {
    if evs != [] {
      OvertakenIsOffline(evs[..|evs| - 1], u);
      OnlineStep(After(evs[..|evs| - 1]), evs[|evs| - 1], u);
    }
  }

  lemma {:induction false} OnlineUnlessOvertaken(evs: seq<Event>, u: User, k: Socket)
    requires Legal(evs) && k in After(evs).phases && WasAdded(After(evs).phases[k], u)
    ensures u in After(evs).online || Overtaken(evs, u)
    decreases |evs|
  {
    var before, e := evs[..|evs| - 1], evs[|evs| - 1];
    var s := After(before);
    OnlineStep(s, e, u);
    if !Adds(s, e, u) && !Removes(s, e, u) {
      if k != e.socket {
        OthersUnmoved(s, e, k);
      }
      OnlineUnlessOvertaken(before, u, k);
    }
  }

  /** Once every handler has finished, the online set is right about `u` exactly when `u` has
      no device, or no departing device's SREM overtook the SADD of those that stayed. */
  lemma OnlineSetRightUnlessOvertaken(evs: seq<Event>, u: User)
    requires Legal(evs) && forall k :: Settled(After(evs), k)
    ensures var s := After(evs);
      (u in s.online <==> Sockets(s, u) != {}) <==> (Sockets(s, u) == {} || !Overtaken(evs, u))
  {
    var s := After(evs);
    NobodyIsLeftOnline(evs, u);
    OvertakenIsOffline(evs, u);
    if Sockets(s, u) != {} {
      var k :| k in Sockets(s, u);
      SocketInvRun(evs);
      assert SocketInv(s, k) && Settled(s, k);
      assert u in MemberOf(if k in s.phases then s.phases[k] else Gone);
      OnlineUnlessOvertaken(evs, u, k);
    }
  }

  /** From the n-th command on, `u` has some device after every command. */
  ghost predicate NeverWithout(evs: seq<Event>, n: nat, u: User)
    requires Legal(evs)
    decreases |evs|
  {
    Sockets(After(evs), u) != {} && (|evs| <= n || NeverWithout(evs[..|evs| - 1], n, u))
  }

  /** No departing device is about to take `u` out of the online set. */
  ghost predicate NobodyRemoves(s: State, u: User) {
    forall k | k in s.phases && s.phases[k].GoingOffline? :: s.phases[k].u != u
  }

  lemma DevicesKeepOnline(s: State, e: Event, u: User)
    requires Enabled(s, e) && Sockets(s, u) != {} && u in s.online && NobodyRemoves(s, u)
    ensures u in Next(s, e).online && NobodyRemoves(Next(s, e), u)
  {
    var t := Next(s, e);
    forall k | k in t.phases && t.phases[k].GoingOffline? ensures t.phases[k].u != u {
      if k != e.socket {
        OthersUnmoved(s, e, k);
      }
    }
  }

  /** However the commands interleave: an online user of whom nobody is about to take leave
      stays in the online set for as long as some device is left. */
  lemma {:induction false} OnlineWhileDevicesStay(evs: seq<Event>, n: nat, u: User)
    requires Legal(evs) && n <= |evs| && Legal(evs[..n]) && NeverWithout(evs, n, u)
    requires u in After(evs[..n]).online && NobodyRemoves(After(evs[..n]), u)
    ensures u in After(evs).online && NobodyRemoves(After(evs), u)
    decreases |evs|
  {
    if n == |evs| {
      assert evs[..n] == evs;
    } else {
      var before := evs[..|evs| - 1];
      assert before[..n] == evs[..n];
      OnlineWhileDevicesStay(before, n, u);
      DevicesKeepOnline(After(before), evs[|evs| - 1], u);
    }
  }

  lemma Advance(evs: seq<Event>, e: Event) returns (r: seq<Event>)
    requires Legal(evs) && Enabled(After(evs), e)
    ensures Legal(r) && After(r) == Next(After(evs), e)
  {
    r := evs + [e];
    assert r[..|r| - 1] == evs;
  }

  lemma ConnectUntilMapped(evs: seq<Event>, k: Socket, u: User) returns (r: seq<Event>)
    requires Legal(evs) && k !in After(evs).phases
    ensures Legal(r)
    ensures var s, t := After(evs), After(r);
      && t == State(s.socketUser[k := u], s.userSockets, s.online, t.phases)
      && t.phases == s.phases[k := Registering(u, u !in s.online, true, false, false)]
  {
    r := ConnectUntilRead(evs, k, u);
    r := Advance(r, WriteMapping(k));
  }

  lemma ConnectUntilRead(evs: seq<Event>, k: Socket, u: User) returns (r: seq<Event>)
    requires Legal(evs) && k !in After(evs).phases
    ensures Legal(r)
    ensures var s, t := After(evs), After(r);
      t == s.(phases := s.phases[k := Registering(u, u !in s.online, false, false, false)])
  {
    r := Advance(evs, Arrive(k, u));
    r := Advance(r, ReadOnline(k));
  }

  lemma ConnectFromMapped(evs: seq<Event>, k: Socket, u: User, first: bool) returns (r: seq<Event>)
    requires Legal(evs) && k in After(evs).phases && After(evs).phases[k] == Registering(u, first, true, false, false)
    ensures Legal(r)
    ensures var s, t := After(evs), After(r);
      t == State(s.socketUser, s.userSockets[u := Sockets(s, u) + {k}], s.online + {u}, s.phases[k := Registered(u)])
  {
    var s := After(evs);
    r := Advance(evs, WriteSet(k));
    r := Advance(r, WriteOnline(k));
    r := Advance(r, EndConnect(k));
    assert After(r).phases == s.phases[k := Registered(u)];
    assert After(r).online == s.online + {u};
  }

  lemma Connect(evs: seq<Event>, k: Socket, u: User) returns (r: seq<Event>)
    requires Legal(evs) && k !in After(evs).phases
    ensures Legal(r)
    ensures var s, t := After(evs), After(r);
      t == State(s.socketUser[k := u], s.userSockets[u := Sockets(s, u) + {k}], s.online + {u}, s.phases[k := Registered(u)])
  {
    var s := After(evs);
    r := ConnectUntilMapped(evs, k, u);
    r := ConnectFromMapped(r, k, u, u !in s.online);
    assert After(r).phases == s.phases[k := Registered(u)];
  }

  /** The socket leaves, up to the point where its handler has seen that no socket is left. */
  lemma LeaveUntilCounted(evs: seq<Event>, k: Socket, u: User) returns (r: seq<Event>)
    requires Legal(evs)
    requires var s := After(evs);
      k in s.phases && s.phases[k] == Registered(u) && k in s.socketUser && s.socketUser[k] == u && Sockets(s, u) == {k}
    ensures Legal(r)
    ensures var s, t := After(evs), After(r);
      t == State(s.socketUser - {k}, s.userSockets[u := {}], s.online, s.phases[k := GoingOffline(u, 2)])
  {
    assert Sockets(After(evs), u) - {k} == {};
    r := Advance(evs, Leave(k));
    r := Advance(r, Proceed(k));
    r := Advance(r, Proceed(k));
    r := Advance(r, Proceed(k));
    r := Advance(r, Proceed(k));
    assert After(r).phases == After(evs).phases[k := GoingOffline(u, 2)];
  }

  lemma FinishOffline(evs: seq<Event>, k: Socket, u: User) returns (r: seq<Event>)
    requires Legal(evs) && k in After(evs).phases && After(evs).phases[k] == GoingOffline(u, 2)
    ensures Legal(r)
    ensures var s, t := After(evs), After(r);
      t == s.(online := s.online - {u}, phases := s.phases[k := Gone])
  {
    r := Advance(evs, Proceed(k));
    r := Advance(r, Proceed(k));
    assert After(r).phases == After(evs).phases[k := Gone];
    assert After(r).online == After(evs).online - {u};
  }

  /** It does happen: a device that connects between the last device's SMEMBERS and its SREM
      is registered, settled, and shown offline. */
  lemma OnlineSetCanDrift(u: User, k: Socket, other: Socket) returns (evs: seq<Event>)
    requires k != other
    ensures Legal(evs) && forall x :: Settled(After(evs), x)
    ensures other in Sockets(After(evs), u) && u !in After(evs).online
  {
    var one := Connect([], k, u);
    assert After(one).phases == map[k := Registered(u)] && Sockets(After(one), u) == {k};
    var left := LeaveUntilCounted(one, k, u);
    var both := Connect(left, other, u);
    assert After(both).phases == map[k := GoingOffline(u, 2), other := Registered(u)];
    evs := FinishOffline(both, k, u);
  }
}
