/** The cache service itself (cache.service.ts): its calls written with their branches,
    and the proof that one call left alone is a run of the protocol. */
module CacheService {
  import opened CacheProtocol
  import opened Options

  datatype Answer = Value(v: CacheProtocol.Value) | Exception | NoAnswer

  function AnswerOf(o: Outcome): Answer {
    match o
    case Returned(v, _, _) => Value(v)
    case Threw => Exception
    case Pending => NoAnswer
  }

  /** How many commands a call has left at most, sleeping included. */
  function Rank(pc: Pc): nat {
    match pc
    case ReadFresh => 9 case ReadStale => 8 case TryLock => 7 case Sleeping(_) => 6 case ReRead => 5
    case Compute(_) => 4 case WriteFresh(_, _) => 3 case WriteStale(_, _) => 2 case Unlock(_, _) => 1 case Finished => 0
  }

  /** Run call `p` to its end, nobody else moving; the clock runs only while it sleeps. */
  function Solo(s: State, p: Pid, factory: Factory): (t: State)
    requires p in s.procs
    ensures p in t.procs && t.procs[p].pc.Finished?
    decreases Rank(s.procs[p].pc)
  {
    var pc := s.procs[p].pc;
    if pc.Finished? then s
    else
      var awake := if pc.Sleeping? && s.now < pc.until then s.(now := pc.until) else s;
      Solo(Next(awake, Step(p, factory)), p, factory)
  }

  /** One command of such a call, woken up first if it sleeps. */
  function Move(s: State, p: Pid, factory: Factory): (t: State)
    requires p in s.procs && !s.procs[p].pc.Finished?
    ensures p in t.procs && t.procs[p].call == s.procs[p].call
    ensures Solo(t, p, factory) == Solo(s, p, factory)
  {
    var pc := s.procs[p].pc;
    Next(if pc.Sleeping? && s.now < pc.until then s.(now := pc.until) else s, Step(p, factory))
  }

  /** The call of `p` on its own, from the moment it starts. */
  function SoloCall(s: State, p: Pid, call: Call, factory: Factory): State
    requires p !in s.procs
  {
    Solo(Next(s, Start(p, call)), p, factory)
  }

  lemma MoveIsARun(s: State, evs: seq<Event>, p: Pid, factory: Factory) returns (more: seq<Event>)
    requires Legal(s, evs) && p in After(s, evs).procs && !After(s, evs).procs[p].pc.Finished?
    ensures Legal(s, more) && After(s, more) == Move(After(s, evs), p, factory)
  {
    var t := After(s, evs);
    var pc := t.procs[p].pc;
    more := evs;
    if pc.Sleeping? && t.now < pc.until {
      more := Advance(s, more, Tick(pc.until - t.now));
    }
    more := Advance(s, more, Step(p, factory));
  }

  lemma MoveLeavesLess(t: State, p: Pid, factory: Factory)
    requires p in t.procs && !t.procs[p].pc.Finished?
    ensures p in Move(t, p, factory).procs && Rank(Move(t, p, factory).procs[p].pc) < Rank(t.procs[p].pc)
  {
  }

  lemma {:induction false} SoloIsARun(s: State, evs: seq<Event>, p: Pid, factory: Factory) returns (more: seq<Event>)
    requires Legal(s, evs) && p in After(s, evs).procs
    ensures Legal(s, more) && After(s, more) == Solo(After(s, evs), p, factory)
    decreases Rank(After(s, evs).procs[p].pc)
  {
    more := evs;
    if !After(s, evs).procs[p].pc.Finished? {
      more := MoveIsARun(s, evs, p, factory);
      MoveLeavesLess(After(s, evs), p, factory);
      more := SoloIsARun(s, more, p, factory);
    }
  }

  /** An uninterrupted call is one of the interleavings of the protocol. */
  lemma SoloCallIsARun(s: State, p: Pid, call: Call, factory: Factory) returns (evs: seq<Event>)
    requires p !in s.procs
    ensures Legal(s, evs) && After(s, evs) == SoloCall(s, p, call, factory)
  {
    evs := [];
    evs := Advance(s, evs, Start(p, call));
    evs := SoloIsARun(s, evs, p, factory);
  }

  // ---------------------------------------------------------------- what a caller may expect

  /** A reader finds a value under this key. */
  ghost predicate Readable(store: map<StoreKey, Entry>, now: nat, k: StoreKey) {
    k in store && store[k].value != Null && (store[k].life.Forever? || now <= store[k].at + store[k].life.n)
  }

  /** The lock of `key` is taken and its time is not past. */
  ghost predicate Taken(store: map<StoreKey, Entry>, now: nat, key: AppKey) {
    Lock(key) in store && (store[Lock(key)].life.Forever? || now <= store[Lock(key)].at + store[Lock(key)].life.n)
  }

  /** When a call that found nothing computes: at once with the lock, or 100 ms later. */
  ghost function ComputesAt(store: map<StoreKey, Entry>, now: nat, key: AppKey): nat {
    if Taken(store, now, key) then now + 100 else now
  }

  /** What it leaves: the factory's value under the fresh key, and under the stale key when
      there is a stale ttl, or nothing new if the factory threw; its own lock is gone, and
      somebody else's stays. */
  ghost function Filled(
      store: map<StoreKey, Entry>, now: nat, me: Pid, key: AppKey,
      ttl: nat, staleTtl: Option<nat>, factory: Factory): map<StoreKey, Entry>
  {
    var at := ComputesAt(store, now, key);
    var unlocked := if Taken(store, now, key) then store else store - {Lock(key)};
    match factory
    case Fails => unlocked
    case Makes(v) =>
      var withFresh := unlocked[Fresh(key) := Entry(v, at, if ttl == 0 then Forever else Ms(1000 * ttl), me)];
      if staleTtl.None? then withFresh
      else withFresh[CacheProtocol.Stale(key) := Entry(v, at, if staleTtl.value == 0 then Forever else Ms(1000 * staleTtl.value), me)]
  }

  /** The store after the `try` block and its `finally`. */
  ghost function Stored(store: map<StoreKey, Entry>, at: nat, me: Pid, call: Call, acquired: bool, factory: Factory): map<StoreKey, Entry> {
    var after := match factory
      case Fails => store
      case Makes(v) =>
        var withFresh := store[Fresh(call.key) := Entry(v, at, if call.ttl == 0 then Forever else Ms(1000 * call.ttl), me)];
        if call.GetOrSet? then withFresh
        else withFresh[CacheProtocol.Stale(call.key) := Entry(v, at, if call.staleTtl == 0 then Forever else Ms(1000 * call.staleTtl), me)];
    if acquired then after - {Lock(call.key)} else after
  }

  lemma StoredIsFilled(before: map<StoreKey, Entry>, now: nat, me: Pid, call: Call, factory: Factory)
    ensures var acquired := !Taken(before, now, call.key);
      var locked := if acquired then before[Lock(call.key) := Entry(Json("1"), now, Ms(30000), me)] else before;
      Stored(locked, ComputesAt(before, now, call.key), me, call, acquired, factory)
        == Filled(before, now, me, call.key, call.ttl, if call.GetOrSet? then None else Some(call.staleTtl), factory)
  {
  }

  ghost function Result(factory: Factory): Answer {
    match factory
    case Makes(v) => Value(v)
    case Fails => Exception
  }

  class CacheService {
    var store: map<StoreKey, Entry>
    var now: nat
    var hits: nat
    var misses: nat

    constructor ()
      ensures store == map[] && now == 0 && hits == 0 && misses == 0
    {
      store, now, hits, misses := map[], 0, 0, 0;
    }

    /** The service and a protocol state see the same store at the same time. */
    ghost predicate Sees(s: State)
      reads this
    {
      store == s.store && now == s.now
    }

    /** `get`: a cached null counts as a hit, and is still answered as null. */
    method Get(key: StoreKey) returns (v: CacheProtocol.Value)
      modifies `hits, `misses
      ensures v == (if Hit(store, now, key).Some? then Hit(store, now, key).value.value else Null)
      ensures hits == old(hits) + (if key in store && Alive(store[key], now) then 1 else 0)
      ensures hits + misses == old(hits) + old(misses) + 1
    {
      if key in store && Alive(store[key], now) {
        hits := hits + 1;
        v := store[key].value;
      } else {
        misses := misses + 1;
        v := Null;
      }
    }

    method Set(me: Pid, key: StoreKey, value: CacheProtocol.Value, ttl: nat)
      modifies `store
      ensures store == old(store)[key := Entry(value, now, LifeOf(ttl), me)]
    {
      store := store[key := Entry(value, now, LifeOf(ttl), me)];
    }

    /** SET key 1 EX 30 NX. */
    method AcquireLock(me: Pid, key: StoreKey) returns (acquired: bool)
      modifies `store
      ensures acquired <==> !(key in old(store) && Alive(old(store)[key], now))
      ensures store == if acquired then old(store)[key := Entry(Json("1"), now, Ms(LOCK_MS), me)] else old(store)
    {
      acquired := !(key in store && Alive(store[key], now));
      if acquired {
        store := store[key := Entry(Json("1"), now, Ms(LOCK_MS), me)];
      }
    }

    method ReleaseLock(key: StoreKey)
      modifies `store
      ensures store == old(store) - {key}
    {
      store := store - {key};
    }

    method Sleep(ms: nat)
      modifies `now
      ensures now == old(now) + ms
    {
      now := now + ms;
    }

    /** Try the lock; if another call has it, sleep and read once more. */
    method LockOrWait(me: Pid, key: AppKey, factory: Factory, ghost t0: State)
      returns (acquired: bool, retry: CacheProtocol.Value, ghost t: State)
      requires Sees(t0) && me in t0.procs && t0.procs[me].pc.TryLock? && t0.procs[me].call.key == key
      modifies this
      ensures Sees(t) && me in t.procs && Solo(t, me, factory) == Solo(t0, me, factory)
      ensures t.procs[me].call == t0.procs[me].call
      ensures acquired ==> retry == Null
      ensures retry == Null ==>
        t.procs[me].pc == Compute(if acquired then Some(now) else None) && t.procs[me].outcome == t0.procs[me].outcome
      ensures retry != Null ==> t.procs[me].pc.Finished?
      ensures retry != Null ==>
        AnswerOf(t.procs[me].outcome) == if t0.procs[me].outcome.Pending? then Value(retry) else AnswerOf(t0.procs[me].outcome)
      ensures hits + misses == old(hits) + old(misses) + (if acquired then 0 else 1)
      ensures acquired <==> !Taken(old(store), old(now), key)
      ensures now == ComputesAt(old(store), old(now), key)
      ensures store == if acquired then old(store)[Lock(key) := Entry(Json("1"), now, Ms(30000), me)] else old(store)
      ensures retry == if !acquired && Readable(store, now, Fresh(key)) then store[Fresh(key)].value else Null
    {
      retry := Null;
      acquired := AcquireLock(me, Lock(key));
      t := Move(t0, me, factory);
      if !acquired {
        Sleep(SLEEP_MS);
        t := Move(t, me, factory);
        retry := Get(Fresh(key));
        t := Move(t, me, factory);
      }
    }

    /** The `try` block with its `finally`: compute, write the value under `key`, and under
        the stale key too when there is one, then release the lock if it was acquired. */
    method ComputeAndStore(me: Pid, call: Call, acquired: bool, factory: Factory, ghost t0: State)
      returns (answer: Answer, ghost t: State)
      requires Sees(t0) && me in t0.procs && t0.procs[me].call == call
      requires t0.procs[me].pc == Compute(if acquired then Some(now) else None)
      modifies `store
      ensures Sees(t) && me in t.procs && Solo(t, me, factory) == Solo(t0, me, factory) && t.procs[me].pc.Finished?
      ensures AnswerOf(t.procs[me].outcome) ==
        (if t0.procs[me].outcome.Pending? then answer else AnswerOf(t0.procs[me].outcome))
      ensures answer == Result(factory)
      ensures store == Stored(old(store), now, me, call, acquired, factory)
    {
      t := Move(t0, me, factory);
      if factory.Makes? {
        Set(me, Fresh(call.key), factory.v, call.ttl);
        t := Move(t, me, factory);
        if call.GetOrSetStale? {
          Set(me, CacheProtocol.Stale(call.key), factory.v, call.staleTtl);
          t := Move(t, me, factory);
        }
        answer := Value(factory.v);
      } else {
        answer := Exception;
      }
      if acquired {
        ReleaseLock(Lock(call.key));
        t := Move(t, me, factory);
      }
    }

    method GetOrSet(me: Pid, key: AppKey, ttl: nat, factory: Factory, ghost s: State) returns (answer: Answer)
      requires Sees(s) && me !in s.procs
      modifies this
      ensures var t := SoloCall(s, me, CacheProtocol.GetOrSet(key, ttl), factory);
        Sees(t) && answer == AnswerOf(t.procs[me].outcome)
      ensures Readable(old(store), old(now), Fresh(key)) ==>
        answer == Value(old(store)[Fresh(key)].value) && store == old(store) && now == old(now)
      ensures !Readable(old(store), old(now), Fresh(key)) ==>
        && answer == Result(factory) && now == ComputesAt(old(store), old(now), key)
        && store == Filled(old(store), old(now), me, key, ttl, None, factory)
      ensures 1 <= hits + misses - old(hits) - old(misses) <= 2
    {
      var call := CacheProtocol.GetOrSet(key, ttl);
      ghost var t := Next(s, Start(me, call));
      var cached := Get(Fresh(key));
      t := Move(t, me, factory);
      if cached != Null {
        return Value(cached);
      }
      var acquired, retry;
      StoredIsFilled(store, now, me, call, factory);
      acquired, retry, t := LockOrWait(me, key, factory, t);
      if retry != Null {
        return Value(retry);
      }
      answer, t := ComputeAndStore(me, call, acquired, factory, t);
    }

    /** `refreshCache`, entered at the lock; `t0` is the state of the protocol there. */
    method RefreshCache(me: Pid, key: AppKey, ttl: nat, staleTtl: nat, factory: Factory, ghost t0: State)
      returns (answer: Answer)
      requires Sees(t0) && me in t0.procs && t0.procs[me].pc.TryLock?
      requires t0.procs[me].call == CacheProtocol.GetOrSetStale(key, ttl, staleTtl)
      modifies this
      ensures var t := Solo(t0, me, factory);
        && Sees(t)
        && AnswerOf(t.procs[me].outcome) ==
             (if t0.procs[me].outcome.Pending? then answer else AnswerOf(t0.procs[me].outcome))
      ensures now == ComputesAt(old(store), old(now), key)
      ensures Taken(old(store), old(now), key) && Readable(old(store), now, Fresh(key)) ==>
        answer == Value(old(store)[Fresh(key)].value) && store == old(store)
      ensures !(Taken(old(store), old(now), key) && Readable(old(store), now, Fresh(key))) ==>
        answer == Result(factory) && store == Filled(old(store), old(now), me, key, ttl, Some(staleTtl), factory)
      ensures 0 <= hits + misses - old(hits) - old(misses) <= 1
    {
      ghost var t;
      var acquired, retry;
      StoredIsFilled(store, now, me, CacheProtocol.GetOrSetStale(key, ttl, staleTtl), factory);
      acquired, retry, t := LockOrWait(me, key, factory, t0);
      if retry != Null {
        return Value(retry);
      }
      answer, t := ComputeAndStore(me, CacheProtocol.GetOrSetStale(key, ttl, staleTtl), acquired, factory, t);
    }

    /** `getOrSetStale`: a stale value is answered at once and refreshed afterwards. */
    method GetOrSetStale(me: Pid, key: AppKey, ttl: nat, staleTtl: nat, factory: Factory, ghost s: State)
      returns (answer: Answer)
      requires Sees(s) && me !in s.procs
      modifies this
      ensures var t := SoloCall(s, me, CacheProtocol.GetOrSetStale(key, ttl, staleTtl), factory);
        Sees(t) && answer == AnswerOf(t.procs[me].outcome)
      ensures Readable(old(store), old(now), Fresh(key)) ==>
        answer == Value(old(store)[Fresh(key)].value) && store == old(store) && now == old(now)
      ensures !Readable(old(store), old(now), Fresh(key)) ==>
        && answer == (if Readable(old(store), old(now), CacheProtocol.Stale(key))
                      then Value(old(store)[CacheProtocol.Stale(key)].value) else Result(factory))
        && now == ComputesAt(old(store), old(now), key)
        && store == Filled(old(store), old(now), me, key, ttl, Some(staleTtl), factory)
      ensures 1 <= hits + misses - old(hits) - old(misses) <= 3
    {
      ghost var t := Next(s, Start(me, CacheProtocol.GetOrSetStale(key, ttl, staleTtl)));
      var cached := Get(Fresh(key));
      t := Move(t, me, factory);
      if cached != Null {
        return Value(cached);
      }
      var stale := Get(CacheProtocol.Stale(key));
      t := Move(t, me, factory);
      if stale != Null {
        var _ := RefreshCache(me, key, ttl, staleTtl, factory, t);
        return Value(stale);
      }
      answer := RefreshCache(me, key, ttl, staleTtl, factory, t);
    }
  }
}
