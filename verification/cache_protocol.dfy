/** The lock and stale-while-revalidate protocol of the cache (cache.service.ts), as a
    step system: any number of calls, on any keys, share one store of expiring entries,
    and between two store commands of one call every other call and the clock may move. */
module CacheProtocol {
  import opened Options

  type Pid = nat
  type AppKey = string

  /** The three keys a call may touch: `key`, `key:stale` and `lock:key`. */
  datatype StoreKey = Fresh(key: AppKey) | Stale(key: AppKey) | Lock(key: AppKey)

  /** What a factory makes; `Null` is the JSON null, which a read treats as a miss. */
  datatype Value = Null | Json(text: string)

  datatype Life = Ms(n: nat) | Forever

  /** A stored value; `at` and `writer` record who wrote it and when. */
  datatype Entry = Entry(value: Value, at: nat, life: Life, writer: Pid)

  const LOCK_MS := 30000
  const SLEEP_MS := 100

  /** A time to live of 0 seconds makes the store write without an expiry. */
  function LifeOf(ttl: nat): Life {
    if ttl == 0 then Forever else Ms(1000 * ttl)
  }

  predicate LifeLeq(a: Life, b: Life) {
    b.Forever? || (a.Ms? && a.n <= b.n)
  }

  /** The store drops an entry once its time is past. */
  predicate Alive(e: Entry, t: nat) {
    e.life.Forever? || t <= e.at + e.life.n
  }

  datatype Call =
    | GetOrSet(key: AppKey, ttl: nat)
    | GetOrSetStale(key: AppKey, ttl: nat, staleTtl: nat)

  /** Where a call is, named by the command it issues next. `lock` holds the time at
      which the call acquired the lock, if it did. */
  datatype Pc =
    | ReadFresh
    | ReadStale
    | TryLock
    | Sleeping(until: nat)
    | ReRead
    | Compute(lock: Option<nat>)
    | WriteFresh(lock: Option<nat>, v: Value)
    | WriteStale(lock: Option<nat>, v: Value)
    | Unlock(since: nat, result: Outcome)
    | Finished

  /** What the caller gets: a value, with the entry it was read from if it was cached. */
  datatype Outcome = Pending | Returned(v: Value, from: Option<Entry>, when: nat) | Threw

  datatype Proc = Proc(call: Call, pc: Pc, outcome: Outcome)

  datatype State = State(now: nat, store: map<StoreKey, Entry>, procs: map<Pid, Proc>, made: set<(AppKey, Value)>)

  datatype Factory = Makes(v: Value) | Fails

  datatype Event = Tick(ms: nat) | Start(p: Pid, call: Call) | Step(p: Pid, factory: Factory)

  const INIT := State(0, map[], map[], {})

  // ---------------------------------------------------------------- steps

  /** GET: the entry under `k` while it is alive, unless it holds null. */
  function Hit(store: map<StoreKey, Entry>, now: nat, k: StoreKey): Option<Entry> {
    if k in store && Alive(store[k], now) && store[k].value != Null then Some(store[k]) else None
  }

  /** A background refresh goes on after the caller was answered. */
  function Settle(p: Proc, pc: Pc, o: Outcome): Proc {
    Proc(p.call, pc, if p.outcome.Pending? then o else p.outcome)
  }

  /** The end of the `try` block: the `finally` block releases only an acquired lock. */
  function LeaveTry(p: Proc, lock: Option<nat>, o: Outcome): Proc {
    if lock.Some? then p.(pc := Unlock(lock.value, o)) else Settle(p, Finished, o)
  }

  predicate Enabled(s: State, e: Event) {
    match e
    case Tick(_) => true
    case Start(p, _) => p !in s.procs
    case Step(p, _) =>
      p in s.procs && !s.procs[p].pc.Finished? && (s.procs[p].pc.Sleeping? ==> s.procs[p].pc.until <= s.now)
  }

  function Next(s: State, e: Event): State
    requires Enabled(s, e)
  {
    match e
    case Tick(ms) => s.(now := s.now + ms)
    case Start(p, call) => s.(procs := s.procs[p := Proc(call, ReadFresh, Pending)])
    case Step(p, factory) => ProcStep(s, p, factory)
  }

  function ProcStep(s: State, p: Pid, factory: Factory): State
    requires p in s.procs && !s.procs[p].pc.Finished?
  {
    var me := s.procs[p];
    var key := me.call.key;
    match me.pc
    case ReadFresh =>
      var hit := Hit(s.store, s.now, Fresh(key));
      s.(procs := s.procs[p :=
        if hit.Some? then Settle(me, Finished, Returned(hit.value.value, hit, s.now))
        else me.(pc := if me.call.GetOrSet? then TryLock else ReadStale)])
    case ReadStale =>
      var hit := Hit(s.store, s.now, Stale(key));
      s.(procs := s.procs[p :=
        if hit.Some? then Settle(me, TryLock, Returned(hit.value.value, hit, s.now))
        else me.(pc := TryLock)])
    case TryLock =>
      if Lock(key) in s.store && Alive(s.store[Lock(key)], s.now) then
        s.(procs := s.procs[p := me.(pc := Sleeping(s.now + SLEEP_MS))])
      else
        s.(store := s.store[Lock(key) := Entry(Json("1"), s.now, Ms(LOCK_MS), p)],
           procs := s.procs[p := me.(pc := Compute(Some(s.now)))])
    case Sleeping(_) =>
      s.(procs := s.procs[p := me.(pc := ReRead)])
    case ReRead =>
      var hit := Hit(s.store, s.now, Fresh(key));
      s.(procs := s.procs[p :=
        if hit.Some? then Settle(me, Finished, Returned(hit.value.value, hit, s.now))
        else me.(pc := Compute(None))])
    case Compute(lock) =>
      (match factory
       case Makes(v) =>
         s.(made := s.made + {(key, v)}, procs := s.procs[p := me.(pc := WriteFresh(lock, v))])
       case Fails =>
         s.(procs := s.procs[p := LeaveTry(me, lock, Threw)]))
    case WriteFresh(lock, v) =>
      var store := s.store[Fresh(key) := Entry(v, s.now, LifeOf(me.call.ttl), p)];
      s.(store := store, procs := s.procs[p :=
        if me.call.GetOrSet? then LeaveTry(me, lock, Returned(v, None, s.now))
        else me.(pc := WriteStale(lock, v))])
    case WriteStale(lock, v) =>
      var life := if me.call.GetOrSetStale? then LifeOf(me.call.staleTtl) else Forever;
      s.(store := s.store[Stale(key) := Entry(v, s.now, life, p)],
         procs := s.procs[p := LeaveTry(me, lock, Returned(v, None, s.now))])
    case Unlock(_, result) =>
      s.(store := s.store - {Lock(key)}, procs := s.procs[p := Settle(me, Finished, result)])
  }

  // ---------------------------------------------------------------- runs

  ghost predicate Legal(s: State, evs: seq<Event>)
    decreases |evs|, 0
  {
    evs == [] || (Legal(s, evs[..|evs| - 1]) && Enabled(After(s, evs[..|evs| - 1]), evs[|evs| - 1]))
  }

  /** The state a run leads to. */
  ghost function After(s: State, evs: seq<Event>): State
    requires Legal(s, evs)
    decreases |evs|, 1
  {
    if evs == [] then s else Next(After(s, evs[..|evs| - 1]), evs[|evs| - 1])
  }

  function HeldSince(pc: Pc): Option<nat> {
    match pc
    case Compute(lock) => lock
    case WriteFresh(lock, _) => lock
    case WriteStale(lock, _) => lock
    case Unlock(since, _) => Some(since)
    case _ => None
  }

  /** `p` is between acquiring and releasing the lock of `k`. */
  predicate Holds(s: State, p: Pid, k: AppKey) {
    p in s.procs && s.procs[p].call.key == k && HeldSince(s.procs[p].pc).Some?
  }

  /** No holder has outlived its lock so far. */
  ghost predicate Timely(s: State) {
    forall p :: p in s.procs && HeldSince(s.procs[p].pc).Some? ==> s.now <= HeldSince(s.procs[p].pc).value + LOCK_MS
  }

  ghost predicate TimelyRun(s: State, evs: seq<Event>)
    requires Legal(s, evs)
    decreases |evs|
  {
    Timely(After(s, evs)) && (evs == [] || TimelyRun(s, evs[..|evs| - 1]))
  }

  // ---------------------------------------------------------------- mutual exclusion

  /** Each holder's lock entry is the one it wrote, and every lock entry has its holder. */
  ghost predicate LockInv(s: State) {
    && (forall p :: p in s.procs && HeldSince(s.procs[p].pc).Some? ==>
          && Lock(s.procs[p].call.key) in s.store
          && s.store[Lock(s.procs[p].call.key)] == Entry(Json("1"), HeldSince(s.procs[p].pc).value, Ms(LOCK_MS), p))
    && (forall k :: Lock(k) in s.store ==> Holds(s, s.store[Lock(k)].writer, k))
  }

  /** A step that touches no lock and neither takes nor gives up one. */
  lemma LockInvFrame(s: State, t: State, p: Pid)
    requires LockInv(s) && p in s.procs && p in t.procs
    requires t.procs == s.procs[p := t.procs[p]] && t.procs[p].call == s.procs[p].call
    requires HeldSince(t.procs[p].pc) == HeldSince(s.procs[p].pc)
    requires forall k :: Lock(k) in t.store <==> Lock(k) in s.store
    requires forall k :: Lock(k) in s.store ==> t.store[Lock(k)] == s.store[Lock(k)]
    ensures LockInv(t)
  {
    forall k | Lock(k) in t.store ensures Holds(t, t.store[Lock(k)].writer, k) {
      assert Holds(s, s.store[Lock(k)].writer, k);
    }
  }

  lemma LockInvTry(s: State, p: Pid, factory: Factory)
    requires LockInv(s) && Timely(s) && p in s.procs && s.procs[p].pc.TryLock?
    ensures LockInv(ProcStep(s, p, factory))
  {
    var t := ProcStep(s, p, factory);
    var key := s.procs[p].call.key;
    if Lock(key) in s.store && Alive(s.store[Lock(key)], s.now) {
      LockInvFrame(s, t, p);
    } else {
      forall q | q in s.procs && HeldSince(s.procs[q].pc).Some? ensures s.procs[q].call.key != key {
      }
      forall k | Lock(k) in t.store ensures Holds(t, t.store[Lock(k)].writer, k) {
        assert k != key ==> Holds(s, s.store[Lock(k)].writer, k);
      }
    }
  }

  lemma LockInvUnlock(s: State, p: Pid, factory: Factory)
    requires LockInv(s) && p in s.procs && s.procs[p].pc.Unlock?
    ensures LockInv(ProcStep(s, p, factory))
  {
    var t := ProcStep(s, p, factory);
    forall k | Lock(k) in t.store ensures Holds(t, t.store[Lock(k)].writer, k) {
      assert Holds(s, s.store[Lock(k)].writer, k);
    }
  }

  lemma LockInvStep(s: State, e: Event)
    requires LockInv(s) && Timely(s) && Enabled(s, e)
    ensures LockInv(Next(s, e))
  {
    var t := Next(s, e);
    if e.Step? {
      var pc := s.procs[e.p].pc;
      if pc.TryLock? {
        LockInvTry(s, e.p, e.factory);
      } else if pc.Unlock? {
        LockInvUnlock(s, e.p, e.factory);
      } else {
        LockInvFrame(s, t, e.p);
      }
    } else {
      forall k | Lock(k) in t.store ensures Holds(t, t.store[Lock(k)].writer, k) {
        assert Holds(s, s.store[Lock(k)].writer, k);
      }
    }
  }

  lemma {:induction false} LockInvRun(evs: seq<Event>)
    requires Legal(INIT, evs) && TimelyRun(INIT, evs)
    ensures LockInv(After(INIT, evs))
    decreases |evs|
  {
    if evs != [] {
      LockInvRun(evs[..|evs| - 1]);
      LockInvStep(After(INIT, evs[..|evs| - 1]), evs[|evs| - 1]);
    }
  }

  /** In every interleaving in which holders release in time: one holder per key, each
      release deletes the releaser's own lock, and no finished call owns one. */
  lemma MutualExclusion(evs: seq<Event>)
    requires Legal(INIT, evs) && TimelyRun(INIT, evs)
    ensures var s := After(INIT, evs);
      && (forall p, q, k :: Holds(s, p, k) && Holds(s, q, k) ==> p == q)
      && (forall p :: p in s.procs && s.procs[p].pc.Unlock? ==>
            Lock(s.procs[p].call.key) in s.store && s.store[Lock(s.procs[p].call.key)].writer == p)
      && (forall k, p :: Lock(k) in s.store && p in s.procs && s.procs[p].pc.Finished? ==> s.store[Lock(k)].writer != p)
  {
    LockInvRun(evs);
  }

  /** What a release leaves: every other holder still has its own live lock. */
  lemma ReleaseSparesOthers(evs: seq<Event>, p: Pid, factory: Factory)
    requires Legal(INIT, evs) && TimelyRun(INIT, evs)
    requires var s := After(INIT, evs); p in s.procs && s.procs[p].pc.Unlock?
    ensures var s := After(INIT, evs);
      var t := Next(s, Step(p, factory));
      forall q, k :: Holds(s, q, k) && q != p ==>
        Holds(t, q, k) && Lock(k) in t.store && t.store[Lock(k)].writer == q && Alive(t.store[Lock(k)], t.now)
  {
    LockInvRun(evs);
    LockInvStep(After(INIT, evs), Step(p, factory));
  }

  /** In a run that was timely up to its last event: a second call gets the lock while `q`
      holds it exactly when `q` is by now overdue. */
  lemma OverlapExactlyWhenOverdue(evs: seq<Event>, q: Pid, p: Pid, factory: Factory)
    requires Legal(INIT, evs) && evs != [] && TimelyRun(INIT, evs[..|evs| - 1])
    requires var s := After(INIT, evs);
      && q in s.procs && HeldSince(s.procs[q].pc).Some?
      && p in s.procs && p != q && s.procs[p].pc.TryLock? && s.procs[p].call.key == s.procs[q].call.key
    ensures var s := After(INIT, evs);
      Holds(Next(s, Step(p, factory)), p, s.procs[p].call.key) <==> s.now > HeldSince(s.procs[q].pc).value + LOCK_MS
  {
    LockInvAfterTimely(evs);
    TryAgainstHolder(After(INIT, evs), q, p, factory);
  }

  lemma LockInvAfterTimely(evs: seq<Event>)
    requires Legal(INIT, evs) && evs != [] && TimelyRun(INIT, evs[..|evs| - 1])
    ensures LockInv(After(INIT, evs))
  {
    LockInvRun(evs[..|evs| - 1]);
    LockInvStep(After(INIT, evs[..|evs| - 1]), evs[|evs| - 1]);
  }

  lemma TryAgainstHolder(s: State, q: Pid, p: Pid, factory: Factory)
    requires LockInv(s) && q in s.procs && HeldSince(s.procs[q].pc).Some?
    requires p in s.procs && p != q && s.procs[p].pc.TryLock? && s.procs[p].call.key == s.procs[q].call.key
    ensures Holds(Next(s, Step(p, factory)), p, s.procs[p].call.key) <==> s.now > HeldSince(s.procs[q].pc).value + LOCK_MS
  {
  }

  lemma Advance(s: State, evs: seq<Event>, e: Event) returns (r: seq<Event>)
    requires Legal(s, evs) && Enabled(After(s, evs), e)
    ensures Legal(s, r) && After(s, r) == Next(After(s, evs), e)
  {
    r := evs + [e];
    assert r[..|r| - 1] == evs;
  }

  /** Two calls on one key: the first holds the lock since time 0, the second is about to
      try. */
  predicate Contended(s: State, k: AppKey) {
    && 0 in s.procs && s.procs[0] == Proc(GetOrSet(k, 60), Compute(Some(0)), Pending)
    && 1 in s.procs && s.procs[1] == Proc(GetOrSet(k, 60), TryLock, Pending)
    && Lock(k) in s.store && s.store[Lock(k)].at == 0 && s.store[Lock(k)].life == Ms(LOCK_MS)
    && s.now == 0
  }

  lemma Contend(k: AppKey) returns (evs: seq<Event>)
    ensures Legal(INIT, evs) && Contended(After(INIT, evs), k)
  {
    evs := Advance(INIT, [], Start(0, GetOrSet(k, 60)));
    evs := Advance(INIT, evs, Start(1, GetOrSet(k, 60)));
    evs := Advance(INIT, evs, Step(0, Fails));
    evs := Advance(INIT, evs, Step(1, Fails));
    evs := Advance(INIT, evs, Step(0, Fails));
  }

  /** Both hold the lock. */
  predicate BothHold(s: State, k: AppKey) {
    && 0 in s.procs && s.procs[0] == Proc(GetOrSet(k, 60), Compute(Some(0)), Pending)
    && 1 in s.procs && s.procs[1].call.key == k && s.procs[1].pc.Compute? && s.procs[1].pc.lock.Some?
  }

  lemma Overrun(k: AppKey) returns (evs: seq<Event>)
    ensures Legal(INIT, evs) && BothHold(After(INIT, evs), k)
  {
    evs := Contend(k);
    evs := Advance(INIT, evs, Tick(LOCK_MS + 1));
    evs := Advance(INIT, evs, Step(1, Fails));
  }

  lemma ReleaseStrips(s: State, k: AppKey)
    requires BothHold(s, k)
    ensures var t := ProcStep(ProcStep(s, 0, Fails), 0, Fails);
      Holds(t, 1, k) && Lock(k) !in t.store
  {
  }

  /** Without the deadline both claims fail: two calls hold the lock at once, and the
      slow one's release deletes the other's lock while that one is still computing. */
  lemma OverdueHolderBreaksExclusion(k: AppKey) returns (both: seq<Event>, stripped: seq<Event>)
    ensures Legal(INIT, both) && Holds(After(INIT, both), 0, k) && Holds(After(INIT, both), 1, k)
    ensures Legal(INIT, stripped) && Holds(After(INIT, stripped), 1, k) && Lock(k) !in After(INIT, stripped).store
  {
    both := Overrun(k);
    ReleaseStrips(After(INIT, both), k);
    stripped := Advance(INIT, both, Step(0, Fails));
    stripped := Advance(INIT, stripped, Step(0, Fails));
  }

  // ---------------------------------------------------------------- hits are answered

  /** A reader finds `e` under `k`. */
  predicate Finds(s: State, k: StoreKey, e: Entry) {
    k in s.store && s.store[k] == e && e.value != Null && (e.life.Forever? || s.now <= e.at + e.life.n)
  }

  /** The call is about to read, and this is the key. */
  predicate AboutToRead(p: Proc) {
    p.pc.ReadFresh? || p.pc.ReadStale? || p.pc.ReRead?
  }

  function ReadKey(p: Proc): StoreKey {
    if p.pc.ReadStale? then Stale(p.call.key) else Fresh(p.call.key)
  }

  lemma OutcomeStays(s: State, e: Event, p: Pid)
    requires Enabled(s, e) && p in s.procs && !s.procs[p].outcome.Pending?
    ensures p in Next(s, e).procs && Next(s, e).procs[p].outcome == s.procs[p].outcome
    ensures s.procs[p].pc.Finished? ==> Next(s, e).procs[p] == s.procs[p]
  {
  }

  lemma {:induction false} OutcomeIsFinal(evs: seq<Event>, n: nat, p: Pid)
    requires Legal(INIT, evs) && n <= |evs| && Legal(INIT, evs[..n])
    requires p in After(INIT, evs[..n]).procs && !After(INIT, evs[..n]).procs[p].outcome.Pending?
    ensures p in After(INIT, evs).procs && After(INIT, evs).procs[p].outcome == After(INIT, evs[..n]).procs[p].outcome
    ensures After(INIT, evs[..n]).procs[p].pc.Finished? ==> After(INIT, evs).procs[p] == After(INIT, evs[..n]).procs[p]
    decreases |evs|
  {
    if n == |evs| {
      assert evs[..n] == evs;
    } else {
      var before := evs[..|evs| - 1];
      assert before[..n] == evs[..n];
      OutcomeIsFinal(before, n, p);
      OutcomeStays(After(INIT, before), evs[|evs| - 1], p);
    }
  }

  /** The step of a read that meets a value: it is the answer unless there was one already,
      nothing is stored or computed, and a read of the fresh key ends the call. */
  lemma ReadTakesHit(s: State, p: Pid, factory: Factory, e: Entry)
    requires p in s.procs && AboutToRead(s.procs[p]) && Finds(s, ReadKey(s.procs[p]), e)
    ensures var t := ProcStep(s, p, factory);
      && t.store == s.store && t.made == s.made && t.procs == s.procs[p := t.procs[p]]
      && (s.procs[p].outcome.Pending? ==> t.procs[p].outcome == Returned(e.value, Some(e), s.now))
      && (s.procs[p].pc.ReadStale? ==> t.procs[p].pc.TryLock?) && (!s.procs[p].pc.ReadStale? ==> t.procs[p].pc.Finished?)
  {
  }

  /** And of one that meets none: the call goes on, without an answer. */
  lemma ReadPassesMiss(s: State, p: Pid, factory: Factory)
    requires p in s.procs && AboutToRead(s.procs[p])
    requires var k := ReadKey(s.procs[p]); k in s.store ==> !Finds(s, k, s.store[k])
    ensures var t, me := ProcStep(s, p, factory), s.procs[p];
      && t.store == s.store && t.made == s.made && t.procs == s.procs[p := t.procs[p]]
      && t.procs[p] == me.(pc := if me.pc.ReRead? then Compute(None)
                                 else if me.pc.ReadFresh? && me.call.GetOrSetStale? then ReadStale else TryLock)
  {
  }

  /** In every interleaving: a call without an answer whose read meets a value is answered
      with that value, whatever happens afterwards, and if the value was fresh the call does
      nothing more. */
  lemma HitIsAnswered(evs: seq<Event>, n: nat, p: Pid, factory: Factory, e: Entry)
    requires Legal(INIT, evs) && n < |evs| && Legal(INIT, evs[..n]) && evs[n] == Step(p, factory)
    requires var s := After(INIT, evs[..n]);
      && p in s.procs && s.procs[p].outcome.Pending? && AboutToRead(s.procs[p]) && Finds(s, ReadKey(s.procs[p]), e)
    ensures var s, t := After(INIT, evs[..n]), After(INIT, evs);
      && p in t.procs && t.procs[p].outcome == Returned(e.value, Some(e), s.now)
      && (!s.procs[p].pc.ReadStale? ==> t.procs[p].pc.Finished?)
  {
    var s := After(INIT, evs[..n]);
    PrefixIsLegal(evs, n + 1);
    assert evs[..n + 1][..n] == evs[..n];
    ReadTakesHit(s, p, factory, e);
    OutcomeIsFinal(evs, n + 1, p);
  }

  lemma {:induction false} PrefixIsLegal(evs: seq<Event>, n: nat)
    requires Legal(INIT, evs) && n <= |evs|
    ensures Legal(INIT, evs[..n])
    decreases |evs|
  {
    if n == |evs| {
      assert evs[..n] == evs;
    } else {
      assert evs[..|evs| - 1][..n] == evs[..n];
      PrefixIsLegal(evs[..|evs| - 1], n);
    }
  }

  // ---------------------------------------------------------------- cached values

  predicate StaleLifeOk(call: Call, life: Life) {
    call.GetOrSetStale? && life == LifeOf(call.staleTtl)
  }

  /** `e` was written under `k` by a call on that same key, with a value some factory run
      for the key made, and with the life that call asked for. */
  ghost predicate Genuine(s: State, k: StoreKey, e: Entry) {
    && e.writer in s.procs && s.procs[e.writer].call.key == k.key
    && (k.key, e.value) in s.made
    && e.at <= s.now
    && (k.Fresh? ==> e.life == LifeOf(s.procs[e.writer].call.ttl))
    && (k.Stale? ==> StaleLifeOk(s.procs[e.writer].call, e.life))
  }

  /** A value handed out: made by this call, or read from an entry then alive. */
  ghost predicate Honest(s: State, p: Proc) {
    p.outcome.Returned? ==>
      && (p.call.key, p.outcome.v) in s.made && p.outcome.when <= s.now
      && (p.outcome.from.Some? ==>
            var e := p.outcome.from.value;
            && e.value == p.outcome.v && e.value != Null && e.at <= p.outcome.when && Alive(e, p.outcome.when)
            && (Genuine(s, Fresh(p.call.key), e) || Genuine(s, Stale(p.call.key), e)))
  }

  ghost predicate WorkInv(s: State, p: Proc) {
    && (p.pc.WriteFresh? ==> (p.call.key, p.pc.v) in s.made)
    && (p.pc.WriteStale? ==> (p.call.key, p.pc.v) in s.made && p.call.GetOrSetStale?)
    && (p.pc.Unlock? ==> Honest(s, Proc(p.call, p.pc, p.pc.result)))
    && Honest(s, p)
  }

  ghost predicate ValueInv(s: State) {
    && (forall k :: k in s.store && !k.Lock? ==> Genuine(s, k, s.store[k]))
    && (forall p :: p in s.procs ==> WorkInv(s, s.procs[p]))
  }

  /** Calls keep their arguments, the clock does not go back, and what was made stays made. */
  ghost predicate Extends(s: State, t: State) {
    && s.now <= t.now && s.made <= t.made
    && forall p :: p in s.procs ==> p in t.procs && t.procs[p].call == s.procs[p].call
  }

  lemma NextExtends(s: State, e: Event)
    requires Enabled(s, e)
    ensures Extends(s, Next(s, e))
    ensures e.Step? ==> forall p :: p in s.procs && p != e.p ==> Next(s, e).procs[p] == s.procs[p]
    ensures e.Step? ==> Next(s, e).procs.Keys == s.procs.Keys
  {
    if e.Step? {
      match s.procs[e.p].pc case _ =>
    }
  }

  lemma WorkInvMonotone(s: State, t: State, p: Proc)
    requires Extends(s, t) && WorkInv(s, p)
    ensures WorkInv(t, p)
  {
  }

  /** The entry a write leaves behind is genuine, and the others are what they were. */
  lemma StoreStaysGenuine(s: State, p: Pid, factory: Factory, k: StoreKey)
    requires ValueInv(s) && Enabled(s, Step(p, factory))
    requires var t := Next(s, Step(p, factory)); k in t.store && !k.Lock?
    ensures var t := Next(s, Step(p, factory)); Genuine(t, k, t.store[k])
  {
    NextExtends(s, Step(p, factory));
    assert WorkInv(s, s.procs[p]);
    assert k in s.store ==> Genuine(s, k, s.store[k]);
  }

  /** What a read finds is honest to hand out. */
  lemma FoundIsHonest(s: State, p: Proc, k: StoreKey, pc: Pc)
    requires ValueInv(s) && WorkInv(s, p) && k.key == p.call.key && !k.Lock?
    requires Hit(s.store, s.now, k).Some? && (pc.Finished? || pc.TryLock?)
    ensures var hit := Hit(s.store, s.now, k);
      WorkInv(s, Settle(p, pc, Returned(hit.value.value, hit, s.now)))
  {
    assert Genuine(s, k, s.store[k]);
    assert k == Fresh(p.call.key) || k == Stale(p.call.key);
  }

  lemma ReaderStaysHonest(s: State, p: Pid, factory: Factory, k: StoreKey)
    requires ValueInv(s) && p in s.procs && k.key == s.procs[p].call.key
    requires if k.Fresh? then s.procs[p].pc.ReadFresh? || s.procs[p].pc.ReRead? else k.Stale? && s.procs[p].pc.ReadStale?
    ensures var t := ProcStep(s, p, factory); p in t.procs && WorkInv(s, t.procs[p])
  {
    var me := s.procs[p];
    assert WorkInv(s, me);
    if Hit(s.store, s.now, k).Some? {
      FoundIsHonest(s, me, k, if k.Fresh? then Finished else TryLock);
    }
  }

  /** What a call that goes on to write or to leave has in hand is honest. */
  lemma WorkerStaysHonest(s: State, p: Pid, factory: Factory)
    requires p in s.procs && WorkInv(s, s.procs[p])
    requires s.procs[p].pc.Compute? || s.procs[p].pc.WriteFresh? || s.procs[p].pc.WriteStale?
    ensures var t := ProcStep(s, p, factory); p in t.procs && WorkInv(t, t.procs[p])
  {
    var t, me := ProcStep(s, p, factory), s.procs[p];
    WorkInvMonotone(s, t, me);
  }

  lemma ActorStaysHonest(s: State, p: Pid, factory: Factory)
    requires ValueInv(s) && Enabled(s, Step(p, factory))
    ensures var t := Next(s, Step(p, factory)); WorkInv(t, t.procs[p])
  {
    var t, me := Next(s, Step(p, factory)), s.procs[p];
    NextExtends(s, Step(p, factory));
    assert WorkInv(s, me);
    if me.pc.ReadFresh? || me.pc.ReRead? || me.pc.ReadStale? {
      ReaderStaysHonest(s, p, factory, if me.pc.ReadStale? then Stale(me.call.key) else Fresh(me.call.key));
      WorkInvMonotone(s, t, t.procs[p]);
    } else if me.pc.Compute? || me.pc.WriteFresh? || me.pc.WriteStale? {
      WorkerStaysHonest(s, p, factory);
    } else {
      WorkInvMonotone(s, t, me);
    }
  }

  lemma ValueInvStep(s: State, e: Event)
    requires ValueInv(s) && Enabled(s, e)
    ensures ValueInv(Next(s, e))
  {
    var t := Next(s, e);
    NextExtends(s, e);
    forall k | k in t.store && !k.Lock? ensures Genuine(t, k, t.store[k]) {
      if e.Step? {
        StoreStaysGenuine(s, e.p, e.factory, k);
      } else {
        assert Genuine(s, k, s.store[k]);
      }
    }
    forall p | p in t.procs ensures WorkInv(t, t.procs[p]) {
      if e.Step? && e.p == p {
        ActorStaysHonest(s, p, e.factory);
      } else if p in s.procs {
        WorkInvMonotone(s, t, s.procs[p]);
      }
    }
  }

  lemma {:induction false} ValueInvRun(evs: seq<Event>)
    requires Legal(INIT, evs)
    ensures ValueInv(After(INIT, evs))
    decreases |evs|
  {
    if evs != [] {
      ValueInvRun(evs[..|evs| - 1]);
      ValueInvStep(After(INIT, evs[..|evs| - 1]), evs[|evs| - 1]);
    }
  }

  /** In every interleaving, whatever the deadlines: a value returned from the cache was
      made by a factory run for that key, and it was written no longer ago than the
      ttl or stale ttl its writer asked for. */
  lemma CachedValuesAreGenuine(evs: seq<Event>, p: Pid)
    requires Legal(INIT, evs)
    requires var s := After(INIT, evs); p in s.procs && s.procs[p].outcome.Returned? && s.procs[p].outcome.from.Some?
    ensures var s := After(INIT, evs);
      var me, e := s.procs[p], s.procs[p].outcome.from.value;
      && (me.call.key, me.outcome.v) in s.made && e.value == me.outcome.v != Null
      && e.writer in s.procs && s.procs[e.writer].call.key == me.call.key
      && var w := s.procs[e.writer].call;
         && (e.life == LifeOf(w.ttl) || StaleLifeOk(w, e.life))
         && (e.life.Ms? ==> e.at <= me.outcome.when <= e.at + e.life.n)
  {
    ValueInvRun(evs);
  }

  // ---------------------------------------------------------------- stale while revalidate

  /** Every call on `k` so far is one of these. */
  ghost predicate CallsWithin(s: State, k: AppKey, allowed: iset<Call>) {
    forall p :: p in s.procs && s.procs[p].call.key == k ==> s.procs[p].call in allowed
  }

  /** On `k` only stale-while-revalidate calls are allowed, and no ttl of one of them
      outlasts the stale ttl of another. */
  ghost predicate Covering(k: AppKey, allowed: iset<Call>) {
    forall c, d :: c in allowed && d in allowed && c.key == d.key == k ==>
      c.GetOrSetStale? && d.GetOrSetStale? && LifeLeq(LifeOf(c.ttl), LifeOf(d.staleTtl))
  }

  /** Some refresh of `k` is between its two writes. */
  ghost predicate Refreshing(s: State, k: AppKey) {
    exists p :: p in s.procs && s.procs[p].call.key == k && s.procs[p].pc.WriteStale?
  }

  ghost predicate PairInv(s: State, k: AppKey) {
    Fresh(k) in s.store && !Refreshing(s, k) ==>
      Stale(k) in s.store && s.store[Fresh(k)].at <= s.store[Stale(k)].at
  }

  /** The two halves of a refresh: its first write opens the gap, its second closes it
      with a copy that is no older than any fresh value. */
  lemma PairInvActor(s: State, p: Pid, factory: Factory, k: AppKey)
    requires ValueInv(s) && PairInv(s, k) && Enabled(s, Step(p, factory))
    requires s.procs[p].call.key == k && s.procs[p].call.GetOrSetStale?
    ensures PairInv(Next(s, Step(p, factory)), k)
  {
    var t, me := Next(s, Step(p, factory)), s.procs[p];
    NextExtends(s, Step(p, factory));
    match me.pc
    case WriteFresh(_, _) => assert t.procs[p].pc.WriteStale? && Refreshing(t, k);
    case WriteStale(_, _) => assert Fresh(k) in s.store ==> Genuine(s, Fresh(k), s.store[Fresh(k)]);
    case _ => RefreshingUnmoved(s, t, p, k);
  }

  lemma RefreshingUnmoved(s: State, t: State, p: Pid, k: AppKey)
    requires Extends(s, t) && t.procs.Keys == s.procs.Keys && p in s.procs
    requires forall q :: q in s.procs && q != p ==> t.procs[q] == s.procs[q]
    requires !s.procs[p].pc.WriteStale? || s.procs[p].call.key != k
    ensures Refreshing(s, k) ==> Refreshing(t, k)
  {
    if Refreshing(s, k) {
      var q :| q in s.procs && s.procs[q].call.key == k && s.procs[q].pc.WriteStale?;
      assert t.procs[q] == s.procs[q];
    }
  }

  lemma PairInvStep(s: State, e: Event, k: AppKey)
    requires ValueInv(s) && PairInv(s, k) && Enabled(s, e)
    requires e.Step? && s.procs[e.p].call.key == k ==> s.procs[e.p].call.GetOrSetStale?
    ensures PairInv(Next(s, e), k)
  {
    var t := Next(s, e);
    NextExtends(s, e);
    match e
    case Tick(_) =>
    case Start(p, _) =>
      if Refreshing(s, k) {
        var q :| q in s.procs && s.procs[q].call.key == k && s.procs[q].pc.WriteStale?;
        assert t.procs[q] == s.procs[q];
      }
    case Step(p, factory) =>
      if s.procs[p].call.key == k {
        PairInvActor(s, p, factory, k);
      } else {
        RefreshingUnmoved(s, t, p, k);
        OtherKeysUnmoved(s, p, factory, k);
      }
  }

  lemma OtherKeysUnmoved(s: State, p: Pid, factory: Factory, k: AppKey)
    requires Enabled(s, Step(p, factory)) && s.procs[p].call.key != k
    ensures var t := Next(s, Step(p, factory));
      forall x :: x in {Fresh(k), Stale(k), Lock(k)} ==>
        (x in t.store <==> x in s.store) && (x in s.store ==> t.store[x] == s.store[x])
  {
    match s.procs[p].pc case _ =>
  }

  lemma {:induction false} PairInvRun(evs: seq<Event>, k: AppKey, allowed: iset<Call>)
    requires Legal(INIT, evs) && CallsWithin(After(INIT, evs), k, allowed)
    requires forall c :: c in allowed && c.key == k ==> c.GetOrSetStale?
    ensures PairInv(After(INIT, evs), k)
    decreases |evs|
  {
    if evs != [] {
      var before := evs[..|evs| - 1];
      ValueInvRun(before);
      var s, e := After(INIT, before), evs[|evs| - 1];
      NextExtends(s, e);
      assert CallsWithin(s, k, allowed);
      PairInvRun(before, k, allowed);
      PairInvStep(s, e, k);
    }
  }

  /** Between refreshes, a live fresh entry has a stale one that stays alive at least as
      long. */
  ghost predicate Backed(s: State, k: AppKey) {
    Fresh(k) in s.store && Alive(s.store[Fresh(k)], s.now) && !Refreshing(s, k) ==>
      Stale(k) in s.store && forall t: nat :: Alive(s.store[Fresh(k)], t) ==> Alive(s.store[Stale(k)], t)
  }

  lemma StaleOutlivesFresh(evs: seq<Event>, k: AppKey, allowed: iset<Call>)
    requires Legal(INIT, evs) && CallsWithin(After(INIT, evs), k, allowed) && Covering(k, allowed)
    ensures Backed(After(INIT, evs), k)
  {
    var s := After(INIT, evs);
    assert forall c :: c in allowed && c.key == k ==> c.GetOrSetStale?;
    PairInvRun(evs, k, allowed);
    ValueInvRun(evs);
    if Fresh(k) in s.store && !Refreshing(s, k) {
      var value, copy := s.store[Fresh(k)], s.store[Stale(k)];
      assert Genuine(s, Fresh(k), value) && Genuine(s, Stale(k), copy);
      var c, d := s.procs[value.writer].call, s.procs[copy.writer].call;
      assert c in allowed && d in allowed && c.key == d.key == k;
      assert LifeLeq(value.life, copy.life);
    }
  }

  /** Between refreshes, a fresh value that a reader can hit has a stale copy that a reader
      can hit, for at least as long. A copy of null is none: reads take it for a miss. */
  ghost predicate UsableBacked(s: State, k: AppKey) {
    Hit(s.store, s.now, Fresh(k)).Some? && !Refreshing(s, k) ==>
      forall t: nat :: Hit(s.store, t, Fresh(k)).Some? ==> Hit(s.store, t, Stale(k)).Some?
  }

  /** The runs in question: only these calls on `k`, and no factory makes null for it. */
  ghost predicate Sound(evs: seq<Event>, k: AppKey, allowed: iset<Call>) {
    Legal(INIT, evs) && CallsWithin(After(INIT, evs), k, allowed) && (k, Null) !in After(INIT, evs).made
  }

  lemma StaleHitOutlivesFreshHit(evs: seq<Event>, k: AppKey, allowed: iset<Call>)
    requires Sound(evs, k, allowed) && Covering(k, allowed)
    ensures UsableBacked(After(INIT, evs), k)
  {
    StaleOutlivesFresh(evs, k, allowed);
    ValueInvRun(evs);
    var s := After(INIT, evs);
    assert Stale(k) in s.store ==> Genuine(s, Stale(k), s.store[Stale(k)]);
  }

  /** A plain call writes no stale copy at all. */
  lemma PlainCallLeavesNoCopy(k: AppKey, ttl: nat, v: Value) returns (evs: seq<Event>)
    requires v != Null
    ensures Sound(evs, k, iset{GetOrSet(k, ttl)}) && !UsableBacked(After(INIT, evs), k)
  {
    evs := Advance(INIT, [], Start(0, GetOrSet(k, ttl)));
    evs := Advance(INIT, evs, Step(0, Fails));
    evs := Advance(INIT, evs, Step(0, Fails));
    evs := Advance(INIT, evs, Step(0, Makes(v)));
    evs := Advance(INIT, evs, Step(0, Fails));
    var s := After(INIT, evs);
    assert !Refreshing(s, k) && Hit(s.store, s.now, Fresh(k)).Some? && Hit(s.store, s.now, Stale(k)).None?;
  }

  /** Two refreshes of `k`, the first with the lock and the second after waiting for it,
      each about to compute; nothing is cached yet. */
  predicate BothCompute(s: State, k: AppKey, c: Call, d: Call) {
    && s.now == SLEEP_MS && s.procs.Keys == {0, 1} && s.made == {}
    && s.procs[0] == Proc(c, Compute(Some(0)), Pending) && s.procs[1] == Proc(d, Compute(None), Pending)
    && Fresh(k) !in s.store && Stale(k) !in s.store
  }

  lemma MeetAtCompute(k: AppKey, c: Call, d: Call) returns (evs: seq<Event>)
    requires c.GetOrSetStale? && d.GetOrSetStale? && c.key == d.key == k
    ensures Legal(INIT, evs) && BothCompute(After(INIT, evs), k, c, d)
  {
    evs := FirstLocks(k, c, d);
    evs := SecondWaits(evs, k, c, d);
    evs := Advance(INIT, evs, Step(1, Fails));
    evs := Advance(INIT, evs, Step(1, Fails));
  }

  lemma SecondWaits(evs: seq<Event>, k: AppKey, c: Call, d: Call) returns (r: seq<Event>)
    requires Legal(INIT, evs) && d.GetOrSetStale? && d.key == k
    requires After(INIT, evs) == State(0, map[Lock(k) := Entry(Json("1"), 0, Ms(LOCK_MS), 0)],
      map[0 := Proc(c, Compute(Some(0)), Pending), 1 := Proc(d, ReadFresh, Pending)], {})
    ensures Legal(INIT, r)
    ensures After(INIT, r) == State(SLEEP_MS, map[Lock(k) := Entry(Json("1"), 0, Ms(LOCK_MS), 0)],
      map[0 := Proc(c, Compute(Some(0)), Pending), 1 := Proc(d, Sleeping(SLEEP_MS), Pending)], {})
  {
    r := Advance(INIT, evs, Step(1, Fails));
    r := Advance(INIT, r, Step(1, Fails));
    r := Advance(INIT, r, Step(1, Fails));
    r := Advance(INIT, r, Tick(SLEEP_MS));
  }

  lemma FirstLocks(k: AppKey, c: Call, d: Call) returns (evs: seq<Event>)
    requires c.GetOrSetStale? && d.GetOrSetStale? && c.key == d.key == k
    ensures Legal(INIT, evs)
    ensures After(INIT, evs) == State(0, map[Lock(k) := Entry(Json("1"), 0, Ms(LOCK_MS), 0)],
      map[0 := Proc(c, Compute(Some(0)), Pending), 1 := Proc(d, ReadFresh, Pending)], {})
  {
    evs := BothStart(c, d);
    evs := Advance(INIT, evs, Step(0, Fails));
    evs := Advance(INIT, evs, Step(0, Fails));
    evs := Advance(INIT, evs, Step(0, Fails));
  }

  lemma BothStart(c: Call, d: Call) returns (evs: seq<Event>)
    ensures Legal(INIT, evs)
    ensures After(INIT, evs) == State(0, map[], map[0 := Proc(c, ReadFresh, Pending), 1 := Proc(d, ReadFresh, Pending)], {})
  {
    evs := Advance(INIT, [], Start(0, c));
    evs := Advance(INIT, evs, Start(1, d));
  }

  /** They write so that the fresh value is the first call's and the stale copy the
      second's. */
  lemma WriteCrosswise(evs: seq<Event>, k: AppKey, c: Call, d: Call, v: Value, w: Value) returns (r: seq<Event>)
    requires Legal(INIT, evs) && BothCompute(After(INIT, evs), k, c, d)
    requires c.GetOrSetStale? && d.GetOrSetStale? && c.key == d.key == k
    ensures Legal(INIT, r)
    ensures var s := After(INIT, r);
      && s.now == SLEEP_MS && s.procs.Keys == {0, 1} && s.procs[0].call == c && s.procs[1].call == d
      && s.made == {(k, v), (k, w)} && !s.procs[0].pc.WriteStale? && !s.procs[1].pc.WriteStale?
      && Fresh(k) in s.store && s.store[Fresh(k)] == Entry(v, SLEEP_MS, LifeOf(c.ttl), 0)
      && Stale(k) in s.store && s.store[Stale(k)] == Entry(w, SLEEP_MS, LifeOf(d.staleTtl), 1)
  {
    r := BothMake(evs, k, c, d, v, w);
    r := BothWriteFresh(r, k, c, d, v, w);
    r := Advance(INIT, r, Step(0, Fails));
    r := Advance(INIT, r, Step(1, Fails));
  }

  lemma BothWriteFresh(evs: seq<Event>, k: AppKey, c: Call, d: Call, v: Value, w: Value) returns (r: seq<Event>)
    requires Legal(INIT, evs) && c.GetOrSetStale? && d.GetOrSetStale? && c.key == d.key == k
    requires var s := After(INIT, evs);
      && s.now == SLEEP_MS && s.procs.Keys == {0, 1} && s.made == {(k, v), (k, w)}
      && s.procs[0] == Proc(c, WriteFresh(Some(0), v), Pending) && s.procs[1] == Proc(d, WriteFresh(None, w), Pending)
    ensures Legal(INIT, r)
    ensures var s := After(INIT, r);
      && s.now == SLEEP_MS && s.procs.Keys == {0, 1} && s.made == {(k, v), (k, w)}
      && s.procs[0] == Proc(c, WriteStale(Some(0), v), Pending) && s.procs[1] == Proc(d, WriteStale(None, w), Pending)
      && Fresh(k) in s.store && s.store[Fresh(k)] == Entry(v, SLEEP_MS, LifeOf(c.ttl), 0)
  {
    r := Advance(INIT, evs, Step(1, Fails));
    r := Advance(INIT, r, Step(0, Fails));
  }

  lemma BothMake(evs: seq<Event>, k: AppKey, c: Call, d: Call, v: Value, w: Value) returns (r: seq<Event>)
    requires Legal(INIT, evs) && BothCompute(After(INIT, evs), k, c, d) && c.key == d.key == k
    ensures Legal(INIT, r)
    ensures var s := After(INIT, r);
      && s.now == SLEEP_MS && s.procs.Keys == {0, 1} && s.made == {(k, v), (k, w)}
      && s.procs[0] == Proc(c, WriteFresh(Some(0), v), Pending) && s.procs[1] == Proc(d, WriteFresh(None, w), Pending)
  {
    r := Advance(INIT, evs, Step(0, Makes(v)));
    r := Advance(INIT, r, Step(1, Makes(w)));
  }

  /** A ttl that outlasts a stale ttl, its own or another call's, leads to a fresh value
      that a reader hits and a stale copy that is dead. */
  lemma CopyDiesFirst(k: AppKey, c: Call, d: Call, v: Value) returns (evs: seq<Event>)
    requires c.GetOrSetStale? && d.GetOrSetStale? && c.key == d.key == k && v != Null
    requires !LifeLeq(LifeOf(c.ttl), LifeOf(d.staleTtl))
    ensures Sound(evs, k, iset{c, d})
    ensures var s := After(INIT, evs);
      && !Refreshing(s, k) && Hit(s.store, s.now, Fresh(k)).Some? && s.store[Fresh(k)].value == v
      && Stale(k) in s.store && !Alive(s.store[Stale(k)], s.now)
  {
    evs := MeetAtCompute(k, c, d);
    evs := WriteCrosswise(evs, k, c, d, v, v);
    evs := Advance(INIT, evs, Tick(1000 * d.staleTtl + 1));
  }

  /** Exactly which calls may share a key so that, in every interleaving in which factories
      make no null for it, fresh values are backed between refreshes. */
  lemma BackedExactlyWhenCovering(k: AppKey, allowed: iset<Call>)
    ensures (forall evs :: Sound(evs, k, allowed) ==> UsableBacked(After(INIT, evs), k)) <==> Covering(k, allowed)
  {
    if Covering(k, allowed) {
      forall evs | Sound(evs, k, allowed) ensures UsableBacked(After(INIT, evs), k) {
        StaleHitOutlivesFreshHit(evs, k, allowed);
      }
    } else {
      var evs := Uncovered(k, allowed, Json(""));
    }
  }

  lemma Uncovered(k: AppKey, allowed: iset<Call>, v: Value) returns (evs: seq<Event>)
    requires !Covering(k, allowed) && v != Null
    ensures Sound(evs, k, allowed) && !UsableBacked(After(INIT, evs), k)
  {
    if c :| c in allowed && c.key == k && c.GetOrSet? {
      evs := PlainCallLeavesNoCopy(k, c.ttl, v);
    } else {
      var c, d :| c in allowed && d in allowed && c.key == d.key == k && !LifeLeq(LifeOf(c.ttl), LifeOf(d.staleTtl));
      evs := CopyDiesFirst(k, c, d, v);
      assert Hit(After(INIT, evs).store, After(INIT, evs).now, Stale(k)).None?;
    }
  }

  /** For a key on which all calls pass the same two times to live: the stale one is
      unlimited, or the fresh one is limited and no larger. A fresh ttl of 0 never
      expires, so `staleTtl >= ttl` alone is not enough. */
  lemma OnePairOfTtls(k: AppKey, ttl: nat, staleTtl: nat)
    ensures (forall evs :: Sound(evs, k, iset{GetOrSetStale(k, ttl, staleTtl)}) ==> UsableBacked(After(INIT, evs), k))
      <==> staleTtl == 0 || 0 < ttl <= staleTtl
  {
    var call := GetOrSetStale(k, ttl, staleTtl);
    BackedExactlyWhenCovering(k, iset{call});
    assert call in iset{call};
  }

  /** With several pairs, `0 < ttl <= staleTtl` in each call is not enough either. */
  lemma MixedTtlsCanFail(k: AppKey, v: Value) returns (evs: seq<Event>)
    requires v != Null
    ensures Sound(evs, k, iset{GetOrSetStale(k, 10, 10), GetOrSetStale(k, 5, 5)})
    ensures var s := After(INIT, evs);
      && !Refreshing(s, k) && Hit(s.store, s.now, Fresh(k)).Some? && s.store[Fresh(k)].value == v
      && Stale(k) in s.store && !Alive(s.store[Stale(k)], s.now)
  {
    evs := CopyDiesFirst(k, GetOrSetStale(k, 10, 10), GetOrSetStale(k, 5, 5), v);
  }

  /** Nor is any condition on the times to live once a factory may make null: of two
      refreshes the slower one can leave null as the copy of the other's value. */
  lemma NullCopyBacksNothing(k: AppKey, call: Call, v: Value) returns (evs: seq<Event>)
    requires call.GetOrSetStale? && call.key == k && v != Null
    ensures Legal(INIT, evs) && CallsWithin(After(INIT, evs), k, iset{call})
    ensures var s := After(INIT, evs);
      && !Refreshing(s, k) && Hit(s.store, s.now, Fresh(k)).Some? && s.store[Fresh(k)].value == v
      && Hit(s.store, s.now, Stale(k)).None?
  {
    evs := MeetAtCompute(k, call, call);
    evs := WriteCrosswise(evs, k, call, call, v, Null);
  }

  /** So without the condition on what is made, only keys that nobody calls are safe. */
  lemma NullSpoilsEveryKey(k: AppKey, allowed: iset<Call>)
    ensures (forall evs :: Legal(INIT, evs) && CallsWithin(After(INIT, evs), k, allowed) ==> UsableBacked(After(INIT, evs), k))
      <==> forall c :: c in allowed ==> c.key != k
  {
    if c :| c in allowed && c.key == k {
      if c.GetOrSet? {
        var evs := PlainCallLeavesNoCopy(k, c.ttl, Json(""));
      } else {
        var evs := NullCopyBacksNothing(k, c, Json(""));
      }
    } else {
      forall evs | Legal(INIT, evs) && CallsWithin(After(INIT, evs), k, allowed) ensures UsableBacked(After(INIT, evs), k) {
        ValueInvRun(evs);
        var s := After(INIT, evs);
        assert Fresh(k) in s.store ==> Genuine(s, Fresh(k), s.store[Fresh(k)]);
      }
    }
  }
}
