/** View counting in batches (listings.service.ts, and the same code in
    forum-threads.service.ts): views are counted in Redis and moved to the database by
    sync runs, which the timer may start before the previous one has ended. */
module ViewSync {
  import opened Sums

  type Id = string

  const PREFIX := "listing:views:"

  function KeyOf(id: Id): string { PREFIX + id }

  /** `key.replace(prefix, '')`: the first occurrence of the prefix is cut out. */
  function ReplaceFirst(s: string, p: string): string {
    if p <= s then s[|p|..]
    else if s == [] then []
    else [s[0]] + ReplaceFirst(s[1..], p)
  }

  lemma KeyRecoversId(id: Id)
    ensures ReplaceFirst(KeyOf(id), PREFIX) == id
    ensures forall other :: KeyOf(other) == KeyOf(id) ==> other == id
  {
    assert KeyOf(id)[|PREFIX|..] == id;
    forall other | KeyOf(other) == KeyOf(id) ensures other == id {
      assert KeyOf(other)[|PREFIX|..] == other;
    }
  }

  lemma IdRecoversKey(key: string)
    requires PREFIX <= key
    ensures KeyOf(ReplaceFirst(key, PREFIX)) == key
  {
  }

  // ---------------------------------------------------------------- interleavings

  type RunId = nat

  /** A sync run: the keys it has still to visit, and what GETDEL gave it and it has not
      yet added to the database. */
  datatype Run = Run(todo: seq<string>, inHand: Hand)
  datatype Hand = Empty | Holding(id: Id, views: nat)

  /** `rows` are the database counters, soft-deleted rows included; `buffer` the Redis
      counters by key; `recorded` and `lost` count the views reported and those that went
      down with a failed database command. */
  datatype State = State(
    rows: map<Id, nat>, buffer: map<string, nat>, runs: map<RunId, Run>, recorded: map<Id, nat>, lost: map<Id, nat>)

  datatype Event =
    | View(id: Id)
    | CreateRow(id: Id)
    | StartSync(r: RunId, keys: seq<string>)
    | GetDel(r: RunId)
    | AddToRow(r: RunId, fails: bool)

  const INIT := State(map[], map[], map[], map[], map[])

  function Get<K>(m: map<K, nat>, k: K): nat { if k in m then m[k] else 0 }

  ghost predicate Enabled(s: State, e: Event) {
    match e
    case View(_) => true
    case CreateRow(id) => id !in s.rows
    case StartSync(r, keys) => r !in s.runs && forall k :: k in keys <==> k in s.buffer && PREFIX <= k
    case GetDel(r) => r in s.runs && s.runs[r].todo != [] && s.runs[r].inHand.Empty?
    case AddToRow(r, _) => r in s.runs && s.runs[r].inHand.Holding?
  }

  /** One command. INCR creates a missing counter; a run that finds its key gone goes on
      to the next one; an increment of a row that does not exist changes nothing; a
      failed increment ends the run. */
  function Next(s: State, e: Event): State
    requires Enabled(s, e)
  {
    match e
    case View(id) =>
      s.(buffer := s.buffer[KeyOf(id) := Get(s.buffer, KeyOf(id)) + 1], recorded := s.recorded[id := Get(s.recorded, id) + 1])
    case CreateRow(id) =>
      s.(rows := s.rows[id := 0])
    case StartSync(r, keys) =>
      s.(runs := s.runs[r := Run(keys, Empty)])
    case GetDel(r) =>
      var run := s.runs[r];
      var key := run.todo[0];
      s.(buffer := s.buffer - {key},
         runs := s.runs[r := Run(run.todo[1..],
           if key in s.buffer then Holding(ReplaceFirst(key, PREFIX), s.buffer[key]) else Empty)])
    case AddToRow(r, fails) =>
      var run := s.runs[r];
      var id, n := run.inHand.id, run.inHand.views;
      var after := s.(runs := s.runs[r := if fails then Run([], Empty) else Run(run.todo, Empty)]);
      if fails || id !in s.rows then after.(lost := s.lost[id := Get(s.lost, id) + n])
      else after.(rows := s.rows[id := s.rows[id] + n])
  }

  ghost predicate Legal(evs: seq<Event>)
    decreases |evs|, 0
  {
    evs == [] || (Legal(evs[..|evs| - 1]) && Enabled(After(evs[..|evs| - 1]), evs[|evs| - 1]))
  }

  ghost function After(evs: seq<Event>): State
    requires Legal(evs)
    decreases |evs|, 1
  {
    if evs == [] then INIT else Next(After(evs[..|evs| - 1]), evs[|evs| - 1])
  }

  // ---------------------------------------------------------------- conservation

  /** The views of `id` one run has in hand. */
  function InHand(run: Run, id: Id): nat {
    if run.inHand.Holding? && run.inHand.id == id then run.inHand.views else 0
  }

  ghost function Hands(runs: map<RunId, Run>, id: Id): map<RunId, int> {
    map r | r in runs :: InHand(runs[r], id)
  }

  /** The views of `id` all runs have in hand. */
  ghost function Held(runs: map<RunId, Run>, id: Id): int {
    Sum(Hands(runs, id))
  }

  lemma HeldUpdate(runs: map<RunId, Run>, id: Id, r: RunId, run: Run)
    ensures Held(runs[r := run], id) ==
      Held(runs, id) - (if r in runs then InHand(runs[r], id) else 0) + InHand(run, id)
  {
    assert Hands(runs[r := run], id) == Hands(runs, id)[r := InHand(run, id)];
    SumUpdate(Hands(runs, id), r, InHand(run, id));
  }

  ghost function Accounted(s: State, id: Id): int {
    Get(s.rows, id) + Get(s.buffer, KeyOf(id)) + Held(s.runs, id) + Get(s.lost, id)
  }

  /** Runs only ever visit, and buffers only ever hold, keys with the prefix. */
  ghost predicate KeysInv(s: State) {
    && (forall k :: k in s.buffer ==> PREFIX <= k)
    && (forall r, k :: r in s.runs && k in s.runs[r].todo ==> PREFIX <= k)
  }

  lemma KeysInvStep(s: State, e: Event)
    requires KeysInv(s) && Enabled(s, e)
    ensures KeysInv(Next(s, e))
  {
    var t := Next(s, e);
    forall r, k | r in t.runs && k in t.runs[r].todo ensures PREFIX <= k {
      if r in s.runs && k in s.runs[r].todo {
      } else {
        assert e.StartSync? && k in s.buffer;
      }
    }
  }

  /** GETDEL moves a counter from the buffer into the run's hand. */
  lemma AccountedGetDel(s: State, r: RunId, id: Id)
    requires KeysInv(s) && Enabled(s, GetDel(r))
    ensures Accounted(Next(s, GetDel(r)), id) == Accounted(s, id)
  {
    var t, key := Next(s, GetDel(r)), s.runs[r].todo[0];
    HeldUpdate(s.runs, id, r, t.runs[r]);
    assert key in s.runs[r].todo;
    IdRecoversKey(key);
    KeyRecoversId(id);
    assert KeyOf(id) == key <==> ReplaceFirst(key, PREFIX) == id;
  }

  /** The increment moves it from there into the row, or into `lost`. */
  lemma AccountedAddToRow(s: State, r: RunId, fails: bool, id: Id)
    requires Enabled(s, AddToRow(r, fails))
    ensures Accounted(Next(s, AddToRow(r, fails)), id) == Accounted(s, id)
  {
    HeldUpdate(s.runs, id, r, Next(s, AddToRow(r, fails)).runs[r]);
  }

  lemma AccountedStep(s: State, e: Event, id: Id)
    requires KeysInv(s) && Enabled(s, e)
    ensures Accounted(Next(s, e), id) - Get(Next(s, e).recorded, id) == Accounted(s, id) - Get(s.recorded, id)
  {
    match e
    case View(other) => KeyRecoversId(other);
    case CreateRow(_) =>
    case StartSync(r, _) => HeldUpdate(s.runs, id, r, Next(s, e).runs[r]);
    case AddToRow(r, fails) => AccountedAddToRow(s, r, fails, id);
    case GetDel(r) => AccountedGetDel(s, r, id);
  }

  lemma {:induction false} Conservation(evs: seq<Event>)
    requires Legal(evs)
    ensures KeysInv(After(evs))
    ensures forall id :: Accounted(After(evs), id) == Get(After(evs).recorded, id)
    decreases |evs|
  {
    if evs != [] {
      var before, e := evs[..|evs| - 1], evs[|evs| - 1];
      Conservation(before);
      KeysInvStep(After(before), e);
      forall id ensures Accounted(After(evs), id) == Get(After(evs).recorded, id) {
        AccountedStep(After(before), e, id);
      }
    } else {
      forall id ensures Accounted(INIT, id) == 0 { }
    }
  }

  /** No increment failed and none missed its row. */
  ghost predicate Lossless(evs: seq<Event>, id: Id)
    requires Legal(evs)
    decreases |evs|
  {
    evs == [] ||
    var before, e := evs[..|evs| - 1], evs[|evs| - 1];
    Lossless(before, id) &&
    (e.AddToRow? && After(before).runs[e.r].inHand.id == id ==>
       !e.fails && id in After(before).rows)
  }

  ghost predicate Positive(s: State) {
    && (forall k :: k in s.buffer ==> s.buffer[k] > 0)
    && (forall r :: r in s.runs && s.runs[r].inHand.Holding? ==> s.runs[r].inHand.views > 0)
  }

  lemma PositiveStep(s: State, e: Event)
    requires Positive(s) && Enabled(s, e)
    ensures Positive(Next(s, e))
  {
  }

  lemma {:induction false} PositiveInHand(evs: seq<Event>)
    requires Legal(evs)
    ensures Positive(After(evs))
    decreases |evs|
  {
    if evs != [] {
      PositiveInHand(evs[..|evs| - 1]);
      PositiveStep(After(evs[..|evs| - 1]), evs[|evs| - 1]);
    }
  }

  lemma {:induction false} LostOnlyByFailure(evs: seq<Event>, id: Id)
    requires Legal(evs)
    ensures Get(After(evs).lost, id) == 0 <==> Lossless(evs, id)
    decreases |evs|
  {
    if evs != [] {
      LostOnlyByFailure(evs[..|evs| - 1], id);
      PositiveInHand(evs[..|evs| - 1]);
    }
  }

  /** In every interleaving of views and overlapping syncs: database, buffer and what the
      runs have in hand make up all recorded views exactly when every increment of that
      listing reached its row; nothing is ever counted twice. */
  lemma ViewConservation(evs: seq<Event>, id: Id)
    requires Legal(evs)
    ensures var s := After(evs);
      var kept := Get(s.rows, id) + Get(s.buffer, KeyOf(id)) + Held(s.runs, id);
      kept <= Get(s.recorded, id) && (kept == Get(s.recorded, id) <==> Lossless(evs, id))
  {
    Conservation(evs);
    LostOnlyByFailure(evs, id);
  }

  // ---------------------------------------------------------------- the service

  /** What the row is owed, with what it has. */
  function Due(rows: map<Id, nat>, buffer: map<string, nat>, id: Id): nat {
    Get(rows, id) + Get(buffer, KeyOf(id))
  }

  function Moved(rows: map<Id, nat>, buffer: map<string, nat>): map<Id, nat> {
    map id | id in rows :: Due(rows, buffer, id)
  }

  lemma Advance(evs: seq<Event>, e: Event) returns (r: seq<Event>)
    requires Legal(evs) && Enabled(After(evs), e)
    ensures r == evs + [e] && Legal(r) && After(r) == Next(After(evs), e)
  {
    r := evs + [e];
    assert r[..|r| - 1] == evs;
  }

  /** One round of a sync run that nobody interrupts. */
  lemma Round(evs: seq<Event>, r: RunId, key: string, rest: seq<string>) returns (more: seq<Event>)
    requires Legal(evs) && r in After(evs).runs && After(evs).runs[r] == Run([key] + rest, Empty)
    ensures Legal(more) && r in After(more).runs && After(more).runs[r] == Run(rest, Empty)
    ensures After(more).buffer == After(evs).buffer - {key}
    ensures var s, id := After(evs), ReplaceFirst(key, PREFIX);
      After(more).rows == if id in s.rows then s.rows[id := s.rows[id] + Get(s.buffer, key)] else s.rows
  {
    more := Advance(evs, GetDel(r));
    assert ([key] + rest)[1..] == rest;
    if key in After(evs).buffer {
      more := Advance(more, AddToRow(r, false));
      HandedOver(After(evs), r, key, rest);
    } else {
      assert After(evs).buffer - {key} == After(evs).buffer;
    }
  }

  lemma HandedOver(s: State, r: RunId, key: string, rest: seq<string>)
    requires r in s.runs && s.runs[r] == Run([key] + rest, Empty) && key in s.buffer
    ensures var t := Next(Next(s, GetDel(r)), AddToRow(r, false));
      && r in t.runs && t.runs[r] == Run(rest, Empty) && t.buffer == s.buffer - {key}
      && t.rows == var id := ReplaceFirst(key, PREFIX); if id in s.rows then s.rows[id := s.rows[id] + s.buffer[key]] else s.rows
  {
    assert ([key] + rest)[1..] == rest;
  }

  lemma NothingToMove(rows: map<Id, nat>)
    ensures Moved(rows, map[]) == rows
  {
  }

  lemma KeyNamesOne(key: string, other: Id)
    requires PREFIX <= key
    ensures KeyOf(other) == key <==> other == ReplaceFirst(key, PREFIX)
  {
    IdRecoversKey(key);
    KeyRecoversId(other);
  }

  lemma DueStays(rows: map<Id, nat>, buffer: map<string, nat>, key: string, after: map<Id, nat>, other: Id)
    requires PREFIX <= key && other in rows
    requires var id := ReplaceFirst(key, PREFIX);
      after == if id in rows then rows[id := rows[id] + Get(buffer, key)] else rows
    ensures Due(after, buffer - {key}, other) == Due(rows, buffer, other)
  {
    KeyNamesOne(key, other);
  }

  /** Moving what a key holds to the row it names changes no total. */
  lemma RoundKeepsMoved(rows: map<Id, nat>, buffer: map<string, nat>, key: string, after: map<Id, nat>)
    requires PREFIX <= key
    requires var id := ReplaceFirst(key, PREFIX);
      after == if id in rows then rows[id := rows[id] + Get(buffer, key)] else rows
    ensures Moved(after, buffer - {key}) == Moved(rows, buffer)
  {
    forall other | other in rows ensures Due(after, buffer - {key}, other) == Due(rows, buffer, other) {
      DueStays(rows, buffer, key, after, other);
    }
    SameDues(rows, buffer, after, buffer - {key});
  }

  lemma SameDues(rows: map<Id, nat>, buffer: map<string, nat>, after: map<Id, nat>, left: map<string, nat>)
    requires after.Keys == rows.Keys && forall id | id in rows :: Due(after, left, id) == Due(rows, buffer, id)
    ensures Moved(after, left) == Moved(rows, buffer)
  {
  }

  class ListingsService {
    var rows: map<Id, nat>
    var buffer: map<string, nat>

    constructor (rows: map<Id, nat>)
      ensures this.rows == rows && buffer == map[]
    {
      this.rows, buffer := rows, map[];
    }

    /** The service has the rows and the buffer of this state of the protocol. */
    ghost predicate Sees(s: State)
      reads this
    {
      rows == s.rows && buffer == s.buffer
    }

    /** Counting a view carries a run of the protocol on, so that conservation goes on
        holding of the service. */
    method IncrementViews(id: Id, ghost evs: seq<Event>) returns (ghost run: seq<Event>)
      requires Legal(evs) && Sees(After(evs))
      modifies `buffer
      ensures Legal(run) && run == evs + [View(id)] && Sees(After(run))
      ensures Get(After(run).recorded, id) == Get(After(evs).recorded, id) + 1
      ensures buffer == old(buffer)[KeyOf(id) := Get(old(buffer), KeyOf(id)) + 1]
    {
      buffer := buffer[KeyOf(id) := Get(buffer, KeyOf(id)) + 1];
      run := Advance(evs, View(id));
    }

    method GetDel(key: string) returns (views: nat)
      modifies `buffer
      ensures views == Get(old(buffer), key) && buffer == old(buffer) - {key}
    {
      views := Get(buffer, key);
      buffer := buffer - {key};
    }

    /** The service stands where this run of the protocol has led, `r` being a sync that has
        these keys still to visit. */
    ghost predicate Syncing(evs: seq<Event>, r: RunId, todo: seq<string>)
      reads this
    {
      Legal(evs) && Sees(After(evs)) && r in After(evs).runs && After(evs).runs[r] == Run(todo, Empty)
    }

    /** One round of the loop: what the key held goes to the row it names. */
    method SyncKey(key: string)
      requires PREFIX <= key
      modifies this
      ensures buffer == old(buffer) - {key}
      ensures var id := ReplaceFirst(key, PREFIX);
        rows == if id in old(rows) then old(rows)[id := old(rows)[id] + Get(old(buffer), key)] else old(rows)
      ensures Moved(rows, buffer) == Moved(old(rows), old(buffer))
    {
      var listingId := ReplaceFirst(key, PREFIX);
      var views := GetDel(key);
      if listingId in rows {
        rows := rows[listingId := rows[listingId] + views];
      }
      RoundKeepsMoved(old(rows), old(buffer), key, rows);
    }

    /** The round carries the run on. */
    method SyncRound(key: string, ghost rest: seq<string>, ghost evs: seq<Event>, ghost r: RunId) returns (ghost run: seq<Event>)
      requires PREFIX <= key && Syncing(evs, r, [key] + rest)
      modifies this
      ensures Syncing(run, r, rest) && buffer == old(buffer) - {key}
      ensures Moved(rows, buffer) == Moved(old(rows), old(buffer))
    {
      run := Round(evs, r, key, rest);
      SyncKey(key);
    }

    /** A sync that nobody interrupts is a run of the protocol that empties the buffer into
        the rows; `keys` is the answer of KEYS, in whatever order. */
    method SyncViewCounts(keys: seq<string>, ghost evs: seq<Event>, ghost r: RunId) returns (ghost run: seq<Event>)
      requires forall k :: k in keys <==> k in buffer
      requires forall k :: k in buffer ==> PREFIX <= k
      requires Legal(evs) && Sees(After(evs)) && r !in After(evs).runs
      modifies this
      ensures buffer == map[]
      ensures rows == Moved(old(rows), old(buffer))
      ensures rows.Keys == old(rows).Keys && forall id | id in rows ::
        rows[id] == old(rows)[id] + if PREFIX + id in old(buffer) then old(buffer)[PREFIX + id] else 0
      ensures Syncing(run, r, [])
    {
      run := Advance(evs, StartSync(r, keys));
      for i := 0 to |keys|
        invariant Moved(rows, buffer) == Moved(old(rows), old(buffer))
        invariant forall k :: k in buffer ==> k in keys[i..]
        invariant Syncing(run, r, keys[i..])
      {
        var key := keys[i];
        assert key in keys && keys[i..] == [key] + keys[i + 1..];
        run := SyncRound(key, keys[i + 1..], run, r);
      }
      assert buffer == map[];
      NothingToMove(rows);
    }
  }
}
