/** Reads of the presence keys (gateway.service.ts): one user at a time, and in batches
    that flatten several commands per user into one pipeline. */
module PresenceReads {
  import opened Options

  type User = string

  /** online:users, user:appear_offline:*, user:lastseen:* */
  datatype Keys = Keys(online: set<User>, hidden: set<User>, lastSeen: map<User, nat>)

  datatype Command = SisMemberOnline(u: User) | GetAppearOffline(u: User) | GetLastSeen(u: User)

  datatype Reply = Number(n: int) | Text(v: Option<string>) | Stamp(at: Option<nat>)

  datatype Info = Info(isOnline: bool, lastSeen: Option<nat>, appearOffline: bool)

  function Answer(k: Keys, c: Command): Reply {
    match c
    case SisMemberOnline(u) => Number(if u in k.online then 1 else 0)
    case GetAppearOffline(u) => Text(if u in k.hidden then Some("1") else None)
    case GetLastSeen(u) => Stamp(if u in k.lastSeen then Some(k.lastSeen[u]) else None)
  }

  /** EXEC answers the commands in the order they were queued. */
  function Exec(k: Keys, pipeline: seq<Command>): seq<Reply> {
    seq(|pipeline|, i requires 0 <= i < |pipeline| => Answer(k, pipeline[i]))
  }

  /** JavaScript truth of a string reply. */
  predicate Truthy(r: Reply) { r.Text? && r.v.Some? && r.v.value != "" }

  class GatewayReads {
    const keys: Keys

    constructor (keys: Keys)
      ensures this.keys == keys
    {
      this.keys := keys;
    }

    method IsUserVisiblyOnline(u: User) returns (r: bool)
      ensures r <==> u in keys.online && u !in keys.hidden
    {
      var isOnline, appearOffline := Answer(keys, SisMemberOnline(u)), Answer(keys, GetAppearOffline(u));
      r := isOnline == Number(1) && !Truthy(appearOffline);
    }

    method GetOnlineStatus(u: User) returns (info: Info)
      ensures IsStatusOf(info, u)
    {
      var member := Answer(keys, SisMemberOnline(u));
      var hidden := Answer(keys, GetAppearOffline(u));
      var lastSeen := Answer(keys, GetLastSeen(u));
      info := Info(member == Number(1) && !Truthy(hidden), lastSeen.at, Truthy(hidden));
    }

    /** The two commands of each user, one user after the other. */
    static method OnlinePipeline(userIds: seq<User>) returns (pipeline: seq<Command>)
      ensures |pipeline| == 2 * |userIds|
      ensures forall j :: 0 <= j < |userIds| ==>
        pipeline[2 * j] == SisMemberOnline(userIds[j]) && pipeline[2 * j + 1] == GetAppearOffline(userIds[j])
    {
      pipeline := [];
      for i := 0 to |userIds|
        invariant |pipeline| == 2 * i
        invariant forall j :: 0 <= j < i ==>
          pipeline[2 * j] == SisMemberOnline(userIds[j]) && pipeline[2 * j + 1] == GetAppearOffline(userIds[j])
      {
        pipeline := pipeline + [SisMemberOnline(userIds[i]), GetAppearOffline(userIds[i])];
      }
    }

    /** Replies 2i and 2i+1 are those of user i, whatever the list, repetitions included. */
    method GetOnlineUsers(userIds: seq<User>) returns (result: map<User, bool>)
      ensures result.Keys == set u | u in userIds
      ensures forall u :: u in userIds ==> (result[u] <==> u in keys.online && u !in keys.hidden)
    {
      result := map[];
      if |userIds| == 0 {
        return;
      }
      var pipeline := OnlinePipeline(userIds);
      var results := Exec(keys, pipeline);
      for i := 0 to |userIds|
        invariant result.Keys == set u | u in userIds[..i]
        invariant forall u :: u in userIds[..i] ==> (result[u] <==> u in keys.online && u !in keys.hidden)
      {
        var userId := userIds[i];
        var isOnline, appearOffline := results[2 * i], results[2 * i + 1];
        result := result[userId := isOnline == Number(1) && !Truthy(appearOffline)];
        assert userIds[..i + 1] == userIds[..i] + [userId];
      }
      assert userIds[..|userIds|] == userIds;
    }

    /** The three commands of each user, one user after the other. */
    static method StatusPipeline(userIds: seq<User>) returns (pipeline: seq<Command>)
      ensures |pipeline| == 3 * |userIds|
      ensures forall j :: 0 <= j < |userIds| ==>
        && pipeline[3 * j] == SisMemberOnline(userIds[j])
        && pipeline[3 * j + 1] == GetAppearOffline(userIds[j])
        && pipeline[3 * j + 2] == GetLastSeen(userIds[j])
    {
      pipeline := [];
      for i := 0 to |userIds|
        invariant |pipeline| == 3 * i
        invariant forall j :: 0 <= j < i ==>
          && pipeline[3 * j] == SisMemberOnline(userIds[j])
          && pipeline[3 * j + 1] == GetAppearOffline(userIds[j])
          && pipeline[3 * j + 2] == GetLastSeen(userIds[j])
      {
        pipeline := pipeline + [SisMemberOnline(userIds[i]), GetAppearOffline(userIds[i]), GetLastSeen(userIds[i])];
      }
    }

    /** What a single-user read answers about `u`. */
    predicate IsStatusOf(info: Info, u: User) {
      && (info.isOnline <==> u in keys.online && u !in keys.hidden)
      && (info.appearOffline <==> u in keys.hidden)
      && info.lastSeen == if u in keys.lastSeen then Some(keys.lastSeen[u]) else None
    }

    lemma StatusReplies(userIds: seq<User>, pipeline: seq<Command>, i: nat)
      requires i < |userIds| && |pipeline| == 3 * |userIds|
      requires pipeline[3 * i] == SisMemberOnline(userIds[i])
      requires pipeline[3 * i + 1] == GetAppearOffline(userIds[i])
      requires pipeline[3 * i + 2] == GetLastSeen(userIds[i])
      ensures var r := Exec(keys, pipeline);
        && r[3 * i] == Answer(keys, SisMemberOnline(userIds[i]))
        && r[3 * i + 1] == Answer(keys, GetAppearOffline(userIds[i]))
        && r[3 * i + 2] == Answer(keys, GetLastSeen(userIds[i]))
    {
    }

    /** Replies 3i, 3i+1 and 3i+2 are those of user i. */
    method GetOnlineStatusBatch(userIds: seq<User>) returns (result: map<User, Info>)
      ensures result.Keys == set u | u in userIds
      ensures forall u :: u in userIds ==> IsStatusOf(result[u], u)
    {
      result := map[];
      if |userIds| == 0 {
        return;
      }
      var pipeline := StatusPipeline(userIds);
      var results := Exec(keys, pipeline);
      for i := 0 to |userIds|
        invariant result.Keys == set u | u in userIds[..i]
        invariant forall u :: u in userIds[..i] ==> IsStatusOf(result[u], u)
      {
        var userId := userIds[i];
        StatusReplies(userIds, pipeline, i);
        var isOnlineMember, appearOffline, lastSeen := results[3 * i], results[3 * i + 1], results[3 * i + 2];
        var isOnline := isOnlineMember == Number(1) && !Truthy(appearOffline);
        result := result[userId := Info(isOnline, lastSeen.at, Truthy(appearOffline))];
        assert userIds[..i + 1] == userIds[..i] + [userId];
      }
      assert userIds[..|userIds|] == userIds;
    }
  }
}

/** Typing indicators (gateway.service.ts): a hash of time stamps per conversation that
    expires as a whole, and a reader that filters the single stamps. */
module Typing {
  import opened Options

  type User = string
  type Conversation = string

  const TTL_MS := 5000
  const TYPING_TIMEOUT := 5000

  datatype Hash = Hash(stamps: map<User, nat>, expiresAt: nat)

  datatype State = State(now: nat, hashes: map<Conversation, Hash>)

  datatype Event = Tick(ms: nat) | SetTyping(c: Conversation, u: User, isTyping: bool)

  const INIT := State(0, map[])

  /** HGETALL: a key whose time is past, or that was never set, reads as empty. */
  function Stamps(s: State, c: Conversation): map<User, nat> {
    if c in s.hashes && s.now <= s.hashes[c].expiresAt then s.hashes[c].stamps else map[]
  }

  /** HSET then EXPIRE, or HDEL; a hash without fields is no key at all. */
  function Next(s: State, e: Event): State {
    match e
    case Tick(ms) => s.(now := s.now + ms)
    case SetTyping(c, u, isTyping) =>
      if isTyping then
        s.(hashes := s.hashes[c := Hash(Stamps(s, c)[u := s.now], s.now + TTL_MS)])
      else
        var left := Stamps(s, c) - {u};
        if left == map[] then s.(hashes := s.hashes - {c})
        else s.(hashes := s.hashes[c := Hash(left, s.hashes[c].expiresAt)])
  }

  function After(evs: seq<Event>): State {
    if evs == [] then INIT else Next(After(evs[..|evs| - 1]), evs[|evs| - 1])
  }

  /** The time of the last call of `u` in `c`, if that call was a start. */
  function Started(evs: seq<Event>, c: Conversation, u: User): Option<nat> {
    if evs == [] then None
    else
      var before, last := evs[..|evs| - 1], evs[|evs| - 1];
      if last.SetTyping? && last.c == c && last.u == u then
        if last.isTyping then Some(After(before).now) else None
      else Started(before, c, u)
  }

  /** Every stamp that can be read is the last start, and it leaves the key only after
      the reader would drop it anyway. */
  ghost predicate StampInv(evs: seq<Event>, c: Conversation, u: User) {
    var s, started := After(evs), Started(evs, c, u);
    && (u in Stamps(s, c) ==> started == Some(Stamps(s, c)[u]))
    && (u in Stamps(s, c) ==> Stamps(s, c)[u] <= s.now && Stamps(s, c)[u] + TTL_MS <= s.hashes[c].expiresAt)
    && (started.Some? && s.now <= started.value + TTL_MS ==> u in Stamps(s, c))
  }

  lemma {:induction false} StampInvRun(evs: seq<Event>, c: Conversation, u: User)
    ensures StampInv(evs, c, u)
    decreases |evs|
  {
    if evs != [] {
      StampInvRun(evs[..|evs| - 1], c, u);
      StampInvStep(evs[..|evs| - 1], evs[|evs| - 1], c, u);
      assert evs[..|evs| - 1] + [evs[|evs| - 1]] == evs;
    }
  }

  lemma StampInvStep(before: seq<Event>, e: Event, c: Conversation, u: User)
    requires StampInv(before, c, u)
    ensures StampInv(before + [e], c, u)
  {
    var evs := before + [e];
    assert evs[..|evs| - 1] == before && evs[|evs| - 1] == e;
  }

  function TypingUsers(s: State, c: Conversation): set<User> {
    set u | u in Stamps(s, c) && s.now - Stamps(s, c)[u] < TYPING_TIMEOUT
  }

  /** For any timed run: the reader answers exactly the users whose last call was a start
      less than five seconds ago, so the key's own expiry never hides one of them. */
  lemma TypingUsersAreTheRecentStarters(evs: seq<Event>, c: Conversation, u: User)
    ensures u in TypingUsers(After(evs), c) <==>
      Started(evs, c, u).Some? && After(evs).now - Started(evs, c, u).value < 5000
  {
    StampInvRun(evs, c, u);
  }

  class TypingIndicator {
    var now: nat
    var hashes: map<Conversation, Hash>

    constructor ()
      ensures now == 0 && hashes == map[]
    {
      now, hashes := 0, map[];
    }

    method Hset(c: Conversation, u: User, stamp: nat)
      modifies `hashes
      ensures c in hashes && hashes[c].stamps == Stamps(State(now, old(hashes)), c)[u := stamp]
      ensures hashes == old(hashes)[c := hashes[c]]
    {
      if c in hashes && now <= hashes[c].expiresAt {
        hashes := hashes[c := hashes[c].(stamps := hashes[c].stamps[u := stamp])];
      } else {
        hashes := hashes[c := Hash(map[u := stamp], now)];
      }
    }

    method Expire(c: Conversation, seconds: nat)
      requires c in hashes
      modifies `hashes
      ensures hashes == old(hashes)[c := Hash(old(hashes)[c].stamps, now + 1000 * seconds)]
    {
      hashes := hashes[c := hashes[c].(expiresAt := now + 1000 * seconds)];
    }

    method Hdel(c: Conversation, u: User)
      modifies `hashes
      ensures State(now, hashes) == Next(State(now, old(hashes)), Event.SetTyping(c, u, false))
    {
      if c in hashes && now <= hashes[c].expiresAt {
        var left := hashes[c].stamps - {u};
        if left == map[] {
          hashes := hashes - {c};
        } else {
          hashes := hashes[c := hashes[c].(stamps := left)];
        }
      } else {
        hashes := hashes - {c};
      }
    }

    method SetTyping(c: Conversation, u: User, isTyping: bool)
      modifies `hashes
      ensures State(now, hashes) == Next(State(now, old(hashes)), Event.SetTyping(c, u, isTyping))
    {
      if isTyping {
        Hset(c, u, now);
        Expire(c, 5);
      } else {
        Hdel(c, u);
      }
    }

    /** The entries of the hash, filtered by age. */
    method GetTypingUsers(c: Conversation) returns (users: seq<User>)
      ensures forall u :: u in users <==> u in TypingUsers(State(now, hashes), c)
      ensures forall i, j :: 0 <= i < j < |users| ==> users[i] != users[j]
    {
      var data := if c in hashes && now <= hashes[c].expiresAt then hashes[c].stamps else map[];
      var entries := data.Keys;
      users := [];
      while entries != {}
        invariant entries <= data.Keys
        invariant forall u :: u in users <==> u in data && u !in entries && now - data[u] < TYPING_TIMEOUT
        invariant forall i, j :: 0 <= i < j < |users| ==> users[i] != users[j]
        decreases entries
      {
        var u :| u in entries;
        entries := entries - {u};
        if now - data[u] < TYPING_TIMEOUT {
          users := users + [u];
        }
      }
    }
  }
}
