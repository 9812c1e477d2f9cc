/** The typing indicator of one conversation command by command (gateway.service.ts): other
    commands, and the clock, may come between the HSET of a start and its EXPIRE. */
module TypingCommands {
  import opened Options

  type User = string

  const TTL_MS := 5000
  const TYPING_TIMEOUT := 5000

  /** The hash with its time of expiry, if one is set, and how many starts have yet to send
      their EXPIRE. */
  datatype State = State(now: nat, stamps: map<User, nat>, deadline: Option<nat>, pending: nat)

  datatype Event = Tick(ms: nat) | Hset(u: User) | Expire | Hdel(u: User)

  const INIT := State(0, map[], None, 0)

  /** The key is there: it has a field, and its time is not past. */
  predicate There(s: State) {
    s.stamps != map[] && (s.deadline.Some? ==> s.now <= s.deadline.value)
  }

  /** HGETALL. */
  function Stamps(s: State): map<User, nat> {
    if There(s) then s.stamps else map[]
  }

  predicate Enabled(s: State, e: Event) {
    e.Expire? ==> s.pending > 0
  }

  /** HSET makes a missing key anew, without an expiry; EXPIRE passes over a missing key;
      HDEL of the last field removes the key. */
  function Next(s: State, e: Event): State
    requires Enabled(s, e)
  {
    match e
    case Tick(ms) => s.(now := s.now + ms)
    case Hset(u) =>
      State(s.now, Stamps(s)[u := s.now], if There(s) then s.deadline else None, s.pending + 1)
    case Expire =>
      State(s.now, Stamps(s), if There(s) then Some(s.now + TTL_MS) else None, s.pending - 1)
    case Hdel(u) =>
      s.(stamps := Stamps(s) - {u}, deadline := if There(s) then s.deadline else None)
  }

  predicate Legal(evs: seq<Event>)
    decreases |evs|, 0
  {
    evs == [] || (Legal(evs[..|evs| - 1]) && Enabled(After(evs[..|evs| - 1]), evs[|evs| - 1]))
  }

  function After(evs: seq<Event>): State
    requires Legal(evs)
    decreases |evs|, 1
  {
    if evs == [] then INIT else Next(After(evs[..|evs| - 1]), evs[|evs| - 1])
  }

  /** What the run says of `u`: no start counts, or one at `at`. Until the next EXPIRE the key
      still has the expiry it had before that start; when the clock passes it, the key is
      gone. */
  datatype Start = NoStart | Fresh(at: nat, inherited: Option<nat>) | Renewed(at: nat) | RanOut(at: nat)

  function StartOf(evs: seq<Event>, u: User): Start
    requires Legal(evs)
  {
    if evs == [] then NoStart
    else
      var before, e := evs[..|evs| - 1], evs[|evs| - 1];
      var s, start := After(before), StartOf(before, u);
      match e
      case Hset(v) => if v == u then Fresh(s.now, if There(s) then s.deadline else None) else start
      case Hdel(v) => if v == u then NoStart else start
      case Expire => if start.Fresh? then Renewed(start.at) else start
      case Tick(ms) =>
        if start.Fresh? && start.inherited.Some? && s.now + ms > start.inherited.value then RanOut(start.at) else start
  }

  /** The state of the key as far as `u` is concerned. */
  predicate Agrees(s: State, start: Start, u: User) {
    match start
    case NoStart => u !in Stamps(s)
    case Fresh(at, inherited) =>
      at <= s.now && u in Stamps(s) && s.stamps[u] == at && s.deadline == inherited
    case Renewed(at) =>
      && at <= s.now && (u in Stamps(s) ==> s.stamps[u] == at)
      && (s.now <= at + TTL_MS ==> u in Stamps(s) && s.deadline.Some? && s.deadline.value >= at + TTL_MS)
    case RanOut(at) => u !in Stamps(s)
  }

  lemma AgreesStep(s: State, e: Event, u: User, start: Start, next: Start)
    requires Enabled(s, e) && Agrees(s, start, u)
    requires next == match e
      case Hset(v) => if v == u then Fresh(s.now, if There(s) then s.deadline else None) else start
      case Hdel(v) => if v == u then NoStart else start
      case Expire => if start.Fresh? then Renewed(start.at) else start
      case Tick(ms) =>
        if start.Fresh? && start.inherited.Some? && s.now + ms > start.inherited.value then RanOut(start.at) else start
    ensures Agrees(Next(s, e), next, u)
  {
  }

  lemma {:induction false} AgreesRun(evs: seq<Event>, u: User)
    requires Legal(evs)
    ensures Agrees(After(evs), StartOf(evs, u), u)
  {
    if evs != [] {
      var before := evs[..|evs| - 1];
      AgreesRun(before, u);
      AgreesStep(After(before), evs[|evs| - 1], u, StartOf(before, u), StartOf(evs, u));
    }
  }

  function TypingUsers(s: State): set<User> {
    set u | u in Stamps(s) && s.now - Stamps(s)[u] < TYPING_TIMEOUT
  }

  /** In every interleaving the reader answers exactly the users whose last call was a start
      less than five seconds ago, except those whose start met an older expiry that passed
      before the next EXPIRE. */
  lemma ShownUnlessRanOut(evs: seq<Event>, u: User)
    requires Legal(evs)
    ensures var start := StartOf(evs, u);
      u in TypingUsers(After(evs)) <==>
        !start.NoStart? && After(evs).now - start.at < TYPING_TIMEOUT && !start.RanOut?
  {
    AgreesRun(evs, u);
  }

  lemma Advance(evs: seq<Event>, e: Event) returns (r: seq<Event>)
    requires Legal(evs) && Enabled(After(evs), e)
    ensures r == evs + [e] && Legal(r) && After(r) == Next(After(evs), e)
  {
    r := evs + [e];
    assert r[..|r| - 1] == evs;
  }

  /** It does happen: a start in the last millisecond of somebody else's key is lost,
      although its call has finished. */
  lemma StartCanBeLost(u: User, other: User) returns (evs: seq<Event>)
    requires u != other
    ensures Legal(evs) && After(evs).pending == 0 && u !in TypingUsers(After(evs))
    ensures evs == [Hset(other), Expire, Tick(TTL_MS), Hset(u), Tick(1), Expire]
  {
    evs := Advance([], Hset(other));
    assert other in After(evs).stamps;
    evs := Advance(evs, Expire);
    evs := Advance(evs, Tick(TTL_MS));
    assert There(After(evs));
    evs := Advance(evs, Hset(u));
    evs := Advance(evs, Tick(1));
    assert Stamps(After(evs)) == map[];
    evs := Advance(evs, Expire);
  }
}
