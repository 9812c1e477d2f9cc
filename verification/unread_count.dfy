/** The cached number of unread notifications (notifications.service.ts): one call at a time,
    and with the fill of the cache and the writes split into their commands. */
module UnreadCount {
  import opened Options

  type UserId = string
  type NotificationId = string
  type Process = nat

  datatype Notification = Notification(userId: UserId, isRead: bool, createdAt: int)

  type Table = map<NotificationId, Notification>

  function UnreadOf(rows: Table, user: UserId): set<NotificationId> {
    set id | id in rows && rows[id].userId == user && !rows[id].isRead
  }

  function Unread(rows: Table, user: UserId): nat {
    |UnreadOf(rows, user)|
  }

  // ---------------------------------------------------------------- writes

  datatype Write =
    | Created(id: NotificationId, recipient: UserId, at: int)
    | MarkedRead(id: NotificationId)
    | MarkedAllRead(user: UserId)
    | Deleted(id: NotificationId)
    | DeletedOld(cutoff: int)

  predicate Possible(rows: Table, w: Write) {
    match w
    case Created(id, _, _) => id !in rows
    case MarkedRead(id) => id in rows && !rows[id].isRead
    case MarkedAllRead(_) => true
    case Deleted(id) => id in rows
    case DeletedOld(_) => true
  }

  function Apply(rows: Table, w: Write): Table
    requires Possible(rows, w)
  {
    match w
    case Created(id, recipient, at) => rows[id := Notification(recipient, false, at)]
    case MarkedRead(id) => rows[id := rows[id].(isRead := true)]
    case MarkedAllRead(user) =>
      map id | id in rows :: if rows[id].userId == user then rows[id].(isRead := true) else rows[id]
    case Deleted(id) => rows - {id}
    case DeletedOld(cutoff) =>
      map id | id in rows && !(rows[id].isRead && rows[id].createdAt < cutoff) :: rows[id]
  }

  /** The user whose cached count the service drops after the write. */
  function Invalidated(rows: Table, w: Write): Option<UserId>
    requires Possible(rows, w)
  {
    match w
    case Created(_, recipient, _) => Some(recipient)
    case MarkedRead(id) => Some(rows[id].userId)
    case MarkedAllRead(user) => Some(user)
    case Deleted(id) => if rows[id].isRead then None else Some(rows[id].userId)
    case DeletedOld(_) => None
  }

  /** A write changes nobody's count but that of the user it invalidates; `deleteOld`, which
      invalidates nobody, changes none. */
  lemma OnlyInvalidatedCountsChange(rows: Table, w: Write, user: UserId)
    requires Possible(rows, w) && Invalidated(rows, w) != Some(user)
    ensures Unread(Apply(rows, w), user) == Unread(rows, user)
  {
    assert UnreadOf(Apply(rows, w), user) == UnreadOf(rows, user);
  }

  // ---------------------------------------------------------------- one call at a time

  const TTL_MS := 300000

  datatype Cached = Cached(count: nat, at: nat)

  class NotificationsService {
    var rows: Table
    var cache: map<UserId, Cached>

    ghost predicate Valid()
      reads this
    {
      forall u | u in cache :: cache[u].count == Unread(rows, u)
    }

    constructor ()
      ensures Valid() && rows == map[] && cache == map[]
    {
      rows, cache := map[], map[];
    }

    method InvalidateUnreadCache(user: UserId)
      modifies `cache
      ensures cache == old(cache) - {user}
    {
      cache := cache - {user};
    }

    method Create(id: NotificationId, recipient: UserId, wanted: bool, now: int) returns (created: bool)
      requires Valid() && id !in rows
      modifies this
      ensures Valid() && created == wanted
      ensures wanted ==> rows == Apply(old(rows), Created(id, recipient, now))
      ensures rows == if wanted then old(rows)[id := Notification(recipient, false, now)] else old(rows)
      ensures cache == if wanted then old(cache) - {recipient} else old(cache)
    {
      if !wanted {
        return false;
      }
      Frame(rows, Created(id, recipient, now));
      rows := rows[id := Notification(recipient, false, now)];
      InvalidateUnreadCache(recipient);
      created := true;
    }

    method MarkAsRead(id: NotificationId, user: UserId) returns (found: bool)
      requires Valid()
      modifies this
      ensures Valid()
      ensures found <==> id in old(rows) && old(rows)[id].userId == user
      ensures rows == if found && !old(rows)[id].isRead then Apply(old(rows), MarkedRead(id)) else old(rows)
      ensures found ==> id in rows && rows == old(rows)[id := old(rows)[id].(isRead := true)]
      ensures !found ==> rows == old(rows)
      ensures cache == if found && !old(rows)[id].isRead then old(cache) - {user} else old(cache)
    {
      if id !in rows || rows[id].userId != user {
        return false;
      }
      found := true;
      if !rows[id].isRead {
        Frame(rows, MarkedRead(id));
        rows := rows[id := rows[id].(isRead := true)];
        InvalidateUnreadCache(user);
      }
    }

    method MarkAllAsRead(user: UserId) returns (affected: nat)
      requires Valid()
      modifies this
      ensures rows == Apply(old(rows), MarkedAllRead(user))
      ensures Valid() && cache == old(cache) - {user} && rows.Keys == old(rows.Keys)
      ensures forall id | id in rows :: rows[id] == old(rows)[id].(isRead := old(rows)[id].isRead || old(rows)[id].userId == user)
      ensures Unread(rows, user) == 0
      ensures affected == |set id | id in old(rows) && old(rows)[id].userId == user && !old(rows)[id].isRead|
    {
      affected := Unread(rows, user);
      Frame(rows, MarkedAllRead(user));
      rows := map id | id in rows :: if rows[id].userId == user then rows[id].(isRead := true) else rows[id];
      InvalidateUnreadCache(user);
      assert UnreadOf(rows, user) == {};
    }

    /** `getUnreadCount` is right whether or not the cache answers. */
    method GetUnreadCount(user: UserId, now: nat) returns (count: nat)
      requires Valid()
      modifies `cache
      ensures Valid() && count == |set id | id in rows && rows[id].userId == user && !rows[id].isRead|
      ensures cache == if user in old(cache) && now <= old(cache)[user].at + 300000 then old(cache)
                       else old(cache)[user := Cached(count, now)]
    {
      if user in cache && now <= cache[user].at + TTL_MS {
        return cache[user].count;
      }
      count := |UnreadOf(rows, user)|;
      cache := cache[user := Cached(count, now)];
    }

    /** Leaves the cache alone. */
    method DeleteOld(cutoff: int) returns (affected: nat)
      requires Valid()
      modifies `rows
      ensures rows == Apply(old(rows), DeletedOld(cutoff))
      ensures Valid() && rows.Keys <= old(rows.Keys)
      ensures forall id | id in old(rows) :: id !in rows <==> old(rows)[id].isRead && old(rows)[id].createdAt < cutoff
      ensures forall id | id in rows :: rows[id] == old(rows)[id]
      ensures affected == |old(rows).Keys - rows.Keys|
      ensures forall u :: Unread(rows, u) == Unread(old(rows), u)
    {
      ghost var was := rows;
      var kept := map id | id in rows && !(rows[id].isRead && rows[id].createdAt < cutoff) :: rows[id];
      affected := |rows.Keys - kept.Keys|;
      rows := kept;
      forall u ensures Unread(rows, u) == Unread(was, u) {
        OnlyInvalidatedCountsChange(was, DeletedOld(cutoff), u);
      }
    }

    method Delete(id: NotificationId, user: UserId) returns (found: bool)
      requires Valid()
      modifies this
      ensures Valid()
      ensures found <==> id in old(rows) && old(rows)[id].userId == user
      ensures found ==> rows == Apply(old(rows), Deleted(id))
      ensures rows == if found then old(rows) - {id} else old(rows)
      ensures cache == if found && !old(rows)[id].isRead then old(cache) - {user} else old(cache)
    {
      if id !in rows || rows[id].userId != user {
        return false;
      }
      found := true;
      Frame(rows, Deleted(id));
      var wasRead := rows[id].isRead;
      rows := rows - {id};
      if !wasRead {
        InvalidateUnreadCache(user);
      }
    }
  }

  lemma Frame(rows: Table, w: Write)
    requires Possible(rows, w)
    ensures forall u | Invalidated(rows, w) != Some(u) :: Unread(Apply(rows, w), u) == Unread(rows, u)
  {
    forall u | Invalidated(rows, w) != Some(u) ensures Unread(Apply(rows, w), u) == Unread(rows, u) {
      OnlyInvalidatedCountsChange(rows, w, u);
    }
  }

  // ---------------------------------------------------------------- command by command

  /** Where a call stands: a reader between its miss, its count and its set, a writer
      between its write and its invalidation. The numbers are positions in the run. */
  datatype Phase =
    | Idle
    | Missed(user: UserId, missedAt: nat)
    | Counted(user: UserId, count: nat, missedAt: nat, countedAt: nat)
    | Wrote(user: UserId)

  datatype Entry = Entry(count: nat, missedAt: nat, countedAt: nat, setAt: nat)

  datatype State = State(rows: Table, cache: map<UserId, Entry>, phases: map<Process, Phase>)

  datatype Event =
    | Miss(p: Process, user: UserId)
    | CountRows(p: Process)
    | SetCache(p: Process)
    | DoWrite(p: Process, write: Write)
    | Invalidate(p: Process, user: UserId)
    | Expire(user: UserId)

  function PhaseOf(s: State, p: Process): Phase {
    if p in s.phases then s.phases[p] else Idle
  }

  predicate Enabled(s: State, e: Event) {
    match e
    case Miss(p, user) => PhaseOf(s, p).Idle? && user !in s.cache
    case CountRows(p) => PhaseOf(s, p).Missed?
    case SetCache(p) => PhaseOf(s, p).Counted?
    case DoWrite(p, w) => PhaseOf(s, p).Idle? && Possible(s.rows, w)
    case Invalidate(p, user) => PhaseOf(s, p) == Wrote(user)
    case Expire(user) => true
  }

  function Step(s: State, e: Event, now: nat): State
    requires Enabled(s, e)
  {
    match e
    case Miss(p, user) => s.(phases := s.phases[p := Missed(user, now)])
    case CountRows(p) =>
      var ph := PhaseOf(s, p);
      s.(phases := s.phases[p := Counted(ph.user, Unread(s.rows, ph.user), ph.missedAt, now)])
    case SetCache(p) =>
      var ph := PhaseOf(s, p);
      s.(cache := s.cache[ph.user := Entry(ph.count, ph.missedAt, ph.countedAt, now)], phases := s.phases[p := Idle])
    case DoWrite(p, w) =>
      var next := match Invalidated(s.rows, w) case None => Idle case Some(user) => Wrote(user);
      s.(rows := Apply(s.rows, w), phases := s.phases[p := next])
    case Invalidate(p, user) => s.(cache := s.cache - {user}, phases := s.phases[p := Idle])
    case Expire(user) => s.(cache := s.cache - {user})
  }

  predicate Legal(run: seq<Event>)
    decreases |run|, 0
  {
    run == [] || (Legal(run[..|run| - 1]) && Enabled(After(run[..|run| - 1]), run[|run| - 1]))
  }

  function After(run: seq<Event>): State
    requires Legal(run)
    decreases |run|, 1
  {
    if run == [] then State(map[], map[], map[])
    else Step(After(run[..|run| - 1]), run[|run| - 1], |run| - 1)
  }

  lemma {:induction false} PrefixLegal(run: seq<Event>, k: nat)
    requires Legal(run) && k <= |run|
    ensures Legal(run[..k])
  {
    if k < |run| {
      PrefixLegal(run[..|run| - 1], k);
      assert run[..|run| - 1][..k] == run[..k];
    } else {
      assert run[..k] == run;
    }
  }

  ghost predicate WritePending(s: State, user: UserId) {
    exists p :: PhaseOf(s, p) == Wrote(user)
  }

  predicate Invalidates(e: Event, user: UserId) {
    e.Invalidate? && e.user == user
  }

  // ---- how far a count can be trusted

  /** A right value stays right, or a write is pending, or the event is the invalidation. */
  lemma ValueStays(s: State, e: Event, now: nat, user: UserId, count: nat)
    requires Enabled(s, e)
    requires count == Unread(s.rows, user) || WritePending(s, user)
    ensures
      || count == Unread(Step(s, e, now).rows, user)
      || WritePending(Step(s, e, now), user)
      || Invalidates(e, user)
  {
    var t := Step(s, e, now);
    if WritePending(s, user) {
      var p :| PhaseOf(s, p) == Wrote(user);
      assert PhaseOf(t, p) == Wrote(user) || Invalidates(e, user);
    } else if e.DoWrite? {
      if Invalidated(s.rows, e.write) == Some(user) {
        assert PhaseOf(t, e.p) == Wrote(user);
      } else {
        OnlyInvalidatedCountsChange(s.rows, e.write, user);
      }
    }
  }

  /** Over a stretch of a run without an invalidation of `user`, the number of unread rows
      does not change, unless a write is still waiting for its invalidation. */
  lemma {:induction false} NoInvalidationNoChange(run: seq<Event>, user: UserId, from: nat)
    requires Legal(run) && from <= |run| && Legal(run[..from])
    requires forall d | from <= d < |run| :: !Invalidates(run[d], user)
    ensures Unread(After(run[..from]).rows, user) == Unread(After(run).rows, user) || WritePending(After(run), user)
    decreases |run|
  {
    if from == |run| {
      assert run[..from] == run;
    } else {
      var front := run[..|run| - 1];
      assert front[..from] == run[..from];
      NoInvalidationNoChange(front, user, from);
      ValueStays(After(front), run[|run| - 1], |front|, user, Unread(After(run[..from]).rows, user));
    }
  }

  // ---- where a cached count comes from

  /** `user` missed the cache at `m` and had `count` unread rows at `c`, in the same call. */
  ghost predicate Observed(run: seq<Event>, p: Process, user: UserId, count: nat, m: nat, c: nat) {
    && m < c < |run| && run[m] == Miss(p, user) && run[c] == CountRows(p)
    && Legal(run[..c]) && Unread(After(run[..c]).rows, user) == count
  }

  ghost predicate EntryExplained(run: seq<Event>, user: UserId, e: Entry) {
    && e.countedAt < e.setAt < |run| && run[e.setAt].SetCache?
    && Observed(run, run[e.setAt].p, user, e.count, e.missedAt, e.countedAt)
    && forall d | e.setAt < d < |run| :: !Invalidates(run[d], user)
  }

  ghost predicate ReaderExplained(run: seq<Event>, p: Process, ph: Phase) {
    match ph
    case Missed(user, m) => m < |run| && run[m] == Miss(p, user)
    case Counted(user, count, m, c) => Observed(run, p, user, count, m, c)
    case _ => true
  }

  lemma Extended(front: seq<Event>, e: Event)
    requires Legal(front) && Enabled(After(front), e)
    ensures Legal(front + [e]) && After(front + [e]) == Step(After(front), e, |front|)
  {
    assert (front + [e])[..|front|] == front;
  }

  lemma ObservedStays(front: seq<Event>, e: Event, p: Process, user: UserId, count: nat, m: nat, c: nat)
    requires Observed(front, p, user, count, m, c)
    ensures Observed(front + [e], p, user, count, m, c)
  {
    assert (front + [e])[..c] == front[..c];
  }

  lemma CountExplained(front: seq<Event>, p: Process, m: nat, user: UserId)
    requires Legal(front) && m < |front| && front[m] == Miss(p, user)
    ensures Observed(front + [CountRows(p)], p, user, Unread(After(front).rows, user), m, |front|)
  {
    assert (front + [CountRows(p)])[..|front|] == front;
  }

  lemma ReaderStep(front: seq<Event>, e: Event, p: Process, before: Phase, now: Phase)
    requires Legal(front) && Enabled(After(front), e)
    requires before == PhaseOf(After(front), p) && now == PhaseOf(Step(After(front), e, |front|), p)
    requires ReaderExplained(front, p, before)
    ensures ReaderExplained(front + [e], p, now)
  {
    if now.Counted? {
      if e == CountRows(p) {
        CountExplained(front, p, before.missedAt, before.user);
      } else {
        ObservedStays(front, e, p, now.user, now.count, now.missedAt, now.countedAt);
      }
    }
  }

  lemma EntryStep(front: seq<Event>, e: Event, user: UserId)
    requires Legal(front) && Enabled(After(front), e) && user in Step(After(front), e, |front|).cache
    requires user in After(front).cache ==> EntryExplained(front, user, After(front).cache[user])
    requires e.SetCache? ==> ReaderExplained(front, e.p, PhaseOf(After(front), e.p))
    ensures EntryExplained(front + [e], user, Step(After(front), e, |front|).cache[user])
  {
    var entry := Step(After(front), e, |front|).cache[user];
    ObservedStays(front, e, if entry.setAt < |front| then front[entry.setAt].p else e.p,
      user, entry.count, entry.missedAt, entry.countedAt);
  }

  lemma {:induction false} RunExplained(run: seq<Event>)
    requires Legal(run)
    ensures forall u | u in After(run).cache :: EntryExplained(run, u, After(run).cache[u])
    ensures forall p :: ReaderExplained(run, p, PhaseOf(After(run), p))
  {
    if run != [] {
      var front, e := run[..|run| - 1], run[|run| - 1];
      assert run == front + [e];
      RunExplained(front);
      forall u | u in After(run).cache ensures EntryExplained(run, u, After(run).cache[u]) {
        EntryStep(front, e, u);
      }
      forall p ensures ReaderExplained(run, p, PhaseOf(After(run), p)) {
        ReaderStep(front, e, p, PhaseOf(After(front), p), PhaseOf(After(run), p));
      }
    }
  }

  lemma EntryOf(run: seq<Event>, user: UserId) returns (e: Entry)
    requires Legal(run) && user in After(run).cache
    ensures e == After(run).cache[user] && EntryExplained(run, user, e)
  {
    RunExplained(run);
    e := After(run).cache[user];
  }

  /** In every interleaving a cached count was the true one at some instant between a miss
      and the set, by the same call, that wrote it. */
  lemma CachedCountWasTrue(run: seq<Event>, user: UserId)
    requires Legal(run) && user in After(run).cache
    ensures exists m: nat, c: nat, k: nat | m < c < k < |run| ::
      && run[m].Miss? && run[m].user == user && run[k].SetCache? && run[k].p == run[m].p
      && Legal(run[..c]) && Unread(After(run[..c]).rows, user) == After(run).cache[user].count
  {
    var e := EntryOf(run, user);
    assert run[e.missedAt].Miss? && run[e.setAt].SetCache?;
    assert Unread(After(run[..e.countedAt]).rows, user) == e.count;
  }

  /** From the set on, nothing has changed the number of unread rows. */
  lemma UnchangedSinceSet(run: seq<Event>, user: UserId, k: nat)
    requires Legal(run) && k < |run| && run[k].SetCache? && !WritePending(After(run), user)
    requires forall d | k < d < |run| :: !Invalidates(run[d], user)
    ensures Legal(run[..k]) && Unread(After(run[..k]).rows, user) == Unread(After(run).rows, user)
  {
    PrefixLegal(run, k);
    PrefixLegal(run, k + 1);
    NoInvalidationNoChange(run, user, k + 1);
    assert run[..k + 1][..k] == run[..k];
  }

  /** When no write waits for its invalidation, a cached count is right exactly when the
      number of unread rows was the same at the count and at the set of the fill that wrote
      it. */
  lemma RightExactlyWhenUnchangedDuringFill(run: seq<Event>, user: UserId, e: Entry)
    requires Legal(run) && user in After(run).cache && e == After(run).cache[user] && !WritePending(After(run), user)
    ensures e.countedAt < e.setAt < |run| && Legal(run[..e.countedAt]) && Legal(run[..e.setAt])
    ensures e.count == Unread(After(run).rows, user)
      <==> Unread(After(run[..e.countedAt]).rows, user) == Unread(After(run[..e.setAt]).rows, user)
  {
    var entry := EntryOf(run, user);
    UnchangedSinceSet(run, user, e.setAt);
  }

  lemma UnchangedSinceCount(run: seq<Event>, user: UserId, c: nat, k: nat)
    requires Legal(run) && c < k < |run| && Legal(run[..c]) && run[c].CountRows? && run[k].SetCache?
    requires !WritePending(After(run), user)
    requires forall d | c < d < |run| && d != k :: !Invalidates(run[d], user)
    ensures Unread(After(run[..c]).rows, user) == Unread(After(run).rows, user)
  {
    NoInvalidationNoChange(run, user, c);
  }

  /** It can be wrong only if an invalidation fell between that count and that set. */
  lemma WrongOnlyByRace(run: seq<Event>, user: UserId, e: Entry)
    requires Legal(run) && user in After(run).cache && e == After(run).cache[user] && !WritePending(After(run), user)
    requires e.count != Unread(After(run).rows, user)
    ensures exists d :: e.countedAt < d < e.setAt && d < |run| && Invalidates(run[d], user)
  {
    var entry := EntryOf(run, user);
    if forall d :: e.countedAt < d < e.setAt && d < |run| ==> !Invalidates(run[d], user) {
      UnchangedSinceCount(run, user, e.countedAt, e.setAt);
    }
  }

  lemma Extend(front: seq<Event>, e: Event) returns (run: seq<Event>)
    requires Legal(front) && Enabled(After(front), e)
    ensures Legal(run) && After(run) == Step(After(front), e, |front|) && |run| == |front| + 1
  {
    Extended(front, e);
    run := front + [e];
  }

  lemma Filling(user: UserId) returns (run: seq<Event>)
    ensures Legal(run) && After(run) == State(map[], map[], map[0 := Counted(user, 0, 0, 1)])
  {
    run := Extend([], Miss(0, user));
    assert UnreadOf(map[], user) == {};
    run := Extend(run, CountRows(0));
  }

  lemma Overtaken(user: UserId, id: NotificationId) returns (run: seq<Event>)
    ensures Legal(run)
    ensures After(run) == State(map[id := Notification(user, false, 0)], map[],
      map[0 := Counted(user, 0, 0, 1), 1 := Idle])
  {
    run := Filling(user);
    run := Extend(run, DoWrite(1, Created(id, user, 0)));
    run := Extend(run, Invalidate(1, user));
    assert After(run).cache == map[];
  }

  /** And that does happen: every call has finished, and the cache is wrong. */
  lemma RaceLeavesItWrong(user: UserId, id: NotificationId) returns (run: seq<Event>)
    ensures Legal(run) && forall p :: PhaseOf(After(run), p).Idle?
    ensures user in After(run).cache
    ensures After(run).cache[user].count == 0 && Unread(After(run).rows, user) == 1
  {
    run := Overtaken(user, id);
    run := Extend(run, SetCache(0));
    assert UnreadOf(After(run).rows, user) == {id};
  }
}
