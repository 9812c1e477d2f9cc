/** Forum threads, replies, likes and categories with their stored counters
    (forum-threads.service.ts, forum-categories.service.ts), one handler at a time. Rows are
    numbered in the order of their creation. A soft-deleted row is `deleted`: reads pass over
    it, increments and decrements still reach it. A row removed for good is `gone`. */
module Forum {
  import opened ForumListing
  import opened Options

  type User = string

  datatype Thread = Thread(user: User, category: nat, locked: bool, deleted: bool, gone: bool, replies: int, likes: int)

  datatype Reply = Reply(user: User, thread: nat, parent: Option<nat>, deleted: bool, gone: bool, likes: int)

  type Likes = set<(nat, User)>

  datatype State = State(
    categories: seq<Category>, threads: seq<Thread>, replies: seq<Reply>,
    threadLikes: Likes, replyLikes: Likes, cache: Option<seq<Listed>>)

  const INIT := State([], [], [], {}, {}, None)

  datatype Op =
    | CreateCategory(name: string, slug: string)
    | UpdateCategory(id: nat, newName: Option<string>, newSlug: Option<string>)
    | DeleteCategory(id: nat)
    | FindAll
    | Expire
    | CreateThread(user: User, category: nat)
    | LockThread(thread: nat)
    | DeleteThread(thread: nat, user: User)
    | LikeThread(thread: nat, user: User)
    | CreateReply(thread: nat, user: User, parent: Option<nat>)
    | DeleteReply(reply: nat, user: User)
    | LikeReply(reply: nat, user: User)

  // ---------------------------------------------------------------- reads

  predicate CategoryThere(s: State, c: nat) { c < |s.categories| && !s.categories[c].gone }

  predicate ThreadFound(s: State, t: nat) { t < |s.threads| && !s.threads[t].deleted && !s.threads[t].gone }

  predicate ReplyFound(s: State, r: nat) { r < |s.replies| && !s.replies[r].deleted && !s.replies[r].gone }

  predicate SlugTaken(categories: seq<Category>, slug: string) {
    exists c | 0 <= c < |categories| :: !categories[c].gone && categories[c].slug == slug
  }

  /** The foreign key of a reply's parent: any row that is still there will do, deleted or
      not, and in whatever thread. */
  predicate ParentThere(s: State, parent: Option<nat>) {
    parent.Some? ==> parent.value < |s.replies| && !s.replies[parent.value].gone
  }

  // ---------------------------------------------------------------- what the handlers do

  function Recount(categories: seq<Category>, c: nat, n: int): seq<Category> {
    if c < |categories| && !categories[c].gone
    then categories[c := categories[c].(threadsCount := categories[c].threadsCount + n)] else categories
  }

  function ThreadsCountBy(s: State, c: nat, n: int): State {
    s.(categories := Recount(s.categories, c, n), cache := None)
  }

  function Toggle(likes: Likes, id: nat, user: User): Likes {
    if (id, user) in likes then likes - {(id, user)} else likes + {(id, user)}
  }

  function ToggleBy(likes: Likes, id: nat, user: User): int {
    if (id, user) in likes then -1 else 1
  }

  /** No request sets a sort order: the column keeps its default. */
  function AddCategory(s: State, name: string, slug: string): State {
    s.(categories := s.categories + [Category(name, slug, 0, 0, false)], cache := None)
  }

  function Updated(c: Category, name: Option<string>, slug: Option<string>): Category {
    var named := if name.Some? then c.(name := name.value) else c;
    if slug.Some? then named.(slug := slug.value) else named
  }

  /** An empty slug is not checked. */
  function UpdateConflict(s: State, id: nat, slug: Option<string>): bool
    requires id < |s.categories|
  {
    slug.Some? && slug.value != "" && slug.value != s.categories[id].slug && SlugTaken(s.categories, slug.value)
  }

  function SweepThreads(threads: seq<Thread>, c: nat): seq<Thread> {
    seq(|threads|, t requires 0 <= t < |threads| =>
      if threads[t].category == c then threads[t].(gone := true) else threads[t])
  }

  /** ON DELETE CASCADE takes a reply with its thread, and with its parent. */
  predicate Doomed(replies: seq<Reply>, threads: seq<Thread>, c: nat, r: nat)
    requires r < |replies|
  {
    || (replies[r].thread < |threads| && threads[replies[r].thread].category == c)
    || (replies[r].parent.Some? && replies[r].parent.value < r && Doomed(replies, threads, c, replies[r].parent.value))
  }

  function SweepReplies(replies: seq<Reply>, threads: seq<Thread>, c: nat): seq<Reply> {
    seq(|replies|, r requires 0 <= r < |replies| =>
      if Doomed(replies, threads, c, r) then replies[r].(gone := true) else replies[r])
  }

  function CategoryDeleted(s: State, c: nat): State
    requires c < |s.categories|
  {
    var threads := SweepThreads(s.threads, c);
    var replies := SweepReplies(s.replies, s.threads, c);
    State(
      s.categories[c := s.categories[c].(gone := true)], threads, replies,
      (set like | like in s.threadLikes && like.0 < |threads| && !threads[like.0].gone),
      (set like | like in s.replyLikes && like.0 < |replies| && !replies[like.0].gone),
      None)
  }

  /** A refused request changes nothing. */
  function Apply(s: State, op: Op): State {
    match op
    case CreateCategory(name, slug) =>
      if SlugTaken(s.categories, slug) then s else AddCategory(s, name, slug)
    case UpdateCategory(id, name, slug) =>
      if !CategoryThere(s, id) || UpdateConflict(s, id, slug) then s
      else s.(categories := s.categories[id := Updated(s.categories[id], name, slug)], cache := None)
    case DeleteCategory(id) => if CategoryThere(s, id) then CategoryDeleted(s, id) else s
    case FindAll => if s.cache.Some? then s else s.(cache := Some(Listing(s.categories)))
    case Expire => s.(cache := None)
    case CreateThread(user, category) =>
      if !CategoryThere(s, category) then s
      else ThreadsCountBy(s.(threads := s.threads + [Thread(user, category, false, false, false, 0, 0)]), category, 1)
    case LockThread(t) =>
      if !ThreadFound(s, t) then s else s.(threads := s.threads[t := s.threads[t].(locked := !s.threads[t].locked)])
    case DeleteThread(t, user) =>
      if !ThreadFound(s, t) || s.threads[t].user != user then s
      else ThreadsCountBy(s.(threads := s.threads[t := s.threads[t].(deleted := true)]), s.threads[t].category, -1)
    case LikeThread(t, user) =>
      if !ThreadFound(s, t) then s
      else s.(
        threadLikes := Toggle(s.threadLikes, t, user),
        threads := s.threads[t := s.threads[t].(likes := s.threads[t].likes + ToggleBy(s.threadLikes, t, user))])
    case CreateReply(t, user, parent) =>
      if !ThreadFound(s, t) || s.threads[t].locked || !ParentThere(s, parent) then s
      else s.(
        replies := s.replies + [Reply(user, t, parent, false, false, 0)],
        threads := s.threads[t := s.threads[t].(replies := s.threads[t].replies + 1)])
    case DeleteReply(r, user) =>
      if !ReplyFound(s, r) || s.replies[r].user != user then s
      else RepliesBy(s.(replies := s.replies[r := s.replies[r].(deleted := true)]), s.replies[r].thread, -1)
    case LikeReply(r, user) =>
      if !ReplyFound(s, r) then s
      else s.(
        replyLikes := Toggle(s.replyLikes, r, user),
        replies := s.replies[r := s.replies[r].(likes := s.replies[r].likes + ToggleBy(s.replyLikes, r, user))])
  }

  function RepliesBy(s: State, t: nat, n: int): State {
    if t < |s.threads| then s.(threads := s.threads[t := s.threads[t].(replies := s.threads[t].replies + n)]) else s
  }

  function After(ops: seq<Op>): State {
    if ops == [] then INIT else Apply(After(ops[..|ops| - 1]), ops[|ops| - 1])
  }

  // ---------------------------------------------------------------- what the counters count

  ghost function LiveThreads(threads: seq<Thread>, c: nat): set<nat> {
    set t: nat | t < |threads| && threads[t].category == c && !threads[t].deleted && !threads[t].gone
  }

  ghost function LiveReplies(replies: seq<Reply>, t: nat): set<nat> {
    set r: nat | r < |replies| && replies[r].thread == t && !replies[r].deleted && !replies[r].gone
  }

  /** Replies that nobody deleted and that a cascade took away all the same. */
  ghost function Swept(replies: seq<Reply>, t: nat): set<nat> {
    set r: nat | r < |replies| && replies[r].thread == t && !replies[r].deleted && replies[r].gone
  }

  ghost function Undeleted(replies: seq<Reply>, t: nat): set<nat> {
    set r: nat | r < |replies| && replies[r].thread == t && !replies[r].deleted
  }

  ghost function LikesOf(likes: Likes, id: nat): set<(nat, User)> {
    set like | like in likes && like.0 == id
  }

  ghost predicate ThreadsCounted(categories: seq<Category>, threads: seq<Thread>) {
    && (forall c | 0 <= c < |categories| :: !categories[c].gone ==> categories[c].threadsCount == |LiveThreads(threads, c)|)
    && (forall t | 0 <= t < |threads| :: threads[t].category < |categories|)
  }

  ghost predicate ThreadLikesCounted(threads: seq<Thread>, likes: Likes) {
    && (forall t | 0 <= t < |threads| :: !threads[t].gone ==> threads[t].likes == |LikesOf(likes, t)|)
    && (forall like | like in likes :: like.0 < |threads|)
  }

  ghost predicate ReplyLikesCounted(replies: seq<Reply>, likes: Likes) {
    && (forall r | 0 <= r < |replies| :: !replies[r].gone ==> replies[r].likes == |LikesOf(likes, r)|)
    && (forall like | like in likes :: like.0 < |replies|)
  }

  ghost predicate RepliesCounted(threads: seq<Thread>, replies: seq<Reply>) {
    && (forall t | 0 <= t < |threads| :: !threads[t].gone ==> threads[t].replies == |Undeleted(replies, t)|)
    && (forall r | 0 <= r < |replies| :: replies[r].thread < |threads|)
  }

  ghost predicate CacheFresh(s: State) {
    s.cache.Some? ==> IsListing(s.cache.value, s.categories)
  }

  // ---------------------------------------------------------------- threads per category

  lemma SameLiveThreads(a: seq<Thread>, b: seq<Thread>, c: nat)
    requires |a| == |b|
    requires forall t | 0 <= t < |a| ::
      a[t].category == b[t].category && a[t].deleted == b[t].deleted && a[t].gone == b[t].gone
    ensures LiveThreads(a, c) == LiveThreads(b, c)
  {
  }

  lemma ThreadsCountedStays(categories: seq<Category>, categories': seq<Category>, a: seq<Thread>, b: seq<Thread>)
    requires ThreadsCounted(categories, a) && |categories| == |categories'| && |a| == |b|
    requires forall c | 0 <= c < |categories| ::
      categories[c].gone == categories'[c].gone && categories[c].threadsCount == categories'[c].threadsCount
    requires forall t | 0 <= t < |a| ::
      a[t].category == b[t].category && a[t].deleted == b[t].deleted && a[t].gone == b[t].gone
    ensures ThreadsCounted(categories', b)
  {
    forall c: nat | c < |categories| ensures LiveThreads(a, c) == LiveThreads(b, c) {
      SameLiveThreads(a, b, c);
    }
  }

  lemma ThreadsCountedNewCategory(categories: seq<Category>, threads: seq<Thread>, added: Category)
    requires ThreadsCounted(categories, threads) && added.threadsCount == 0
    ensures ThreadsCounted(categories + [added], threads)
  {
    assert LiveThreads(threads, |categories|) == {};
  }

  lemma LiveThreadsGrow(threads: seq<Thread>, th: Thread, c: nat)
    requires !th.deleted && !th.gone
    ensures |LiveThreads(threads + [th], c)| == |LiveThreads(threads, c)| + if c == th.category then 1 else 0
  {
    assert LiveThreads(threads + [th], c)
        == LiveThreads(threads, c) + if c == th.category then {|threads|} else {};
  }

  lemma ThreadsCountedNewThread(categories: seq<Category>, threads: seq<Thread>, th: Thread, counted: seq<Category>)
    requires ThreadsCounted(categories, threads) && th.category < |categories| && !th.deleted && !th.gone
    requires counted == Recount(categories, th.category, 1)
    ensures ThreadsCounted(counted, threads + [th])
  {
    forall c: nat | c < |categories|
      ensures |LiveThreads(threads + [th], c)| == |LiveThreads(threads, c)| + if c == th.category then 1 else 0
    {
      LiveThreadsGrow(threads, th, c);
    }
  }

  lemma ThreadsCountedDelete(categories: seq<Category>, threads: seq<Thread>, t: nat, counted: seq<Category>)
    requires ThreadsCounted(categories, threads) && t < |threads| && !threads[t].deleted && !threads[t].gone
    requires counted == Recount(categories, threads[t].category, -1)
    ensures ThreadsCounted(counted, threads[t := threads[t].(deleted := true)])
  {
    var b := threads[t := threads[t].(deleted := true)];
    forall c: nat | c < |categories|
      ensures LiveThreads(b, c) == LiveThreads(threads, c) - if c == threads[t].category then {t} else {}
    {
    }
    assert t in LiveThreads(threads, threads[t].category);
  }

  lemma ThreadsCountedSweep(categories: seq<Category>, threads: seq<Thread>, gone: nat)
    requires ThreadsCounted(categories, threads) && gone < |categories|
    ensures ThreadsCounted(categories[gone := categories[gone].(gone := true)], SweepThreads(threads, gone))
  {
    forall c: nat | c < |categories| && c != gone
      ensures LiveThreads(SweepThreads(threads, gone), c) == LiveThreads(threads, c)
    {
    }
  }

  lemma ThreadsCountedStep(s: State, op: Op)
    requires ThreadsCounted(s.categories, s.threads)
    ensures ThreadsCounted(Apply(s, op).categories, Apply(s, op).threads)
  {
    var t := Apply(s, op);
    match op
    case CreateCategory(name, slug) =>
      ThreadsCountedNewCategory(s.categories, s.threads, Category(name, slug, 0, 0, false));
    case DeleteCategory(id) =>
      if CategoryThere(s, id) { ThreadsCountedSweep(s.categories, s.threads, id); }
    case CreateThread(user, category) =>
      if CategoryThere(s, category) {
        ThreadsCountedNewThread(s.categories, s.threads, Thread(user, category, false, false, false, 0, 0), t.categories);
      }
    case DeleteThread(th, user) =>
      if ThreadFound(s, th) && s.threads[th].user == user {
        ThreadsCountedDelete(s.categories, s.threads, th, t.categories);
      }
    case _ => ThreadsCountedStays(s.categories, t.categories, s.threads, t.threads);
  }

  // ---------------------------------------------------------------- likes

  lemma ToggleCounts(likes: Likes, id: nat, user: User)
    ensures |LikesOf(Toggle(likes, id, user), id)| == |LikesOf(likes, id)| + ToggleBy(likes, id, user)
    ensures forall other | other != id :: LikesOf(Toggle(likes, id, user), other) == LikesOf(likes, other)
  {
    var like := (id, user);
    if like in likes {
      assert LikesOf(likes - {like}, id) == LikesOf(likes, id) - {like};
      assert like in LikesOf(likes, id);
    } else {
      assert LikesOf(likes + {like}, id) == LikesOf(likes, id) + {like};
    }
    forall other | other != id ensures LikesOf(Toggle(likes, id, user), other) == LikesOf(likes, other) {
    }
  }

  lemma NobodyLikesIt(likes: Likes, id: nat)
    requires forall like | like in likes :: like.0 != id
    ensures LikesOf(likes, id) == {}
  {
  }

  lemma ThreadLikesToggle(threads: seq<Thread>, likes: Likes, t: nat, user: User)
    requires ThreadLikesCounted(threads, likes) && t < |threads|
    ensures ThreadLikesCounted(
      threads[t := threads[t].(likes := threads[t].likes + ToggleBy(likes, t, user))], Toggle(likes, t, user))
  {
    ToggleCounts(likes, t, user);
  }

  lemma ThreadLikesSweep(s: State, c: nat)
    requires ThreadLikesCounted(s.threads, s.threadLikes) && c < |s.categories|
    ensures var after := CategoryDeleted(s, c); ThreadLikesCounted(after.threads, after.threadLikes)
  {
    var after := CategoryDeleted(s, c);
    forall t: nat | t < |s.threads| && !after.threads[t].gone
      ensures LikesOf(after.threadLikes, t) == LikesOf(s.threadLikes, t)
    {
    }
  }

  lemma ThreadLikesStep(s: State, op: Op)
    requires ThreadLikesCounted(s.threads, s.threadLikes)
    ensures ThreadLikesCounted(Apply(s, op).threads, Apply(s, op).threadLikes)
  {
    match op
    case LikeThread(t, user) => if ThreadFound(s, t) { ThreadLikesToggle(s.threads, s.threadLikes, t, user); }
    case CreateThread(_, _) => NobodyLikesIt(s.threadLikes, |s.threads|);
    case DeleteCategory(id) => if CategoryThere(s, id) { ThreadLikesSweep(s, id); }
    case _ =>
  }

  lemma ReplyLikesToggle(replies: seq<Reply>, likes: Likes, r: nat, user: User)
    requires ReplyLikesCounted(replies, likes) && r < |replies|
    ensures ReplyLikesCounted(
      replies[r := replies[r].(likes := replies[r].likes + ToggleBy(likes, r, user))], Toggle(likes, r, user))
  {
    ToggleCounts(likes, r, user);
  }

  lemma ReplyLikesSweep(s: State, c: nat)
    requires ReplyLikesCounted(s.replies, s.replyLikes) && c < |s.categories|
    ensures var after := CategoryDeleted(s, c); ReplyLikesCounted(after.replies, after.replyLikes)
  {
    var after := CategoryDeleted(s, c);
    forall r: nat | r < |s.replies| && !after.replies[r].gone
      ensures LikesOf(after.replyLikes, r) == LikesOf(s.replyLikes, r)
    {
    }
  }

  lemma ReplyLikesStep(s: State, op: Op)
    requires ReplyLikesCounted(s.replies, s.replyLikes)
    ensures ReplyLikesCounted(Apply(s, op).replies, Apply(s, op).replyLikes)
  {
    match op
    case LikeReply(r, user) => if ReplyFound(s, r) { ReplyLikesToggle(s.replies, s.replyLikes, r, user); }
    case CreateReply(_, _, _) => NobodyLikesIt(s.replyLikes, |s.replies|);
    case DeleteCategory(id) => if CategoryThere(s, id) { ReplyLikesSweep(s, id); }
    case _ =>
  }

  // ---------------------------------------------------------------- replies per thread

  lemma RepliesCountedStays(threads: seq<Thread>, threads': seq<Thread>, a: seq<Reply>, b: seq<Reply>)
    requires RepliesCounted(threads, a) && |threads| == |threads'| && |a| == |b|
    requires forall t | 0 <= t < |threads| ::
      threads[t].replies == threads'[t].replies && (threads[t].gone ==> threads'[t].gone)
    requires forall r | 0 <= r < |a| :: a[r].thread == b[r].thread && a[r].deleted == b[r].deleted
    ensures RepliesCounted(threads', b)
  {
    forall t: nat | t < |threads| ensures Undeleted(a, t) == Undeleted(b, t) {
    }
  }

  lemma RepliesCountedNewThread(threads: seq<Thread>, replies: seq<Reply>, th: Thread)
    requires RepliesCounted(threads, replies) && th.replies == 0
    ensures RepliesCounted(threads + [th], replies)
  {
    assert Undeleted(replies, |threads|) == {};
  }

  function Bumped(threads: seq<Thread>, t: nat, n: int): seq<Thread>
    requires t < |threads|
  {
    threads[t := threads[t].(replies := threads[t].replies + n)]
  }

  lemma UndeletedGrow(replies: seq<Reply>, reply: Reply, t: nat)
    requires !reply.deleted
    ensures |Undeleted(replies + [reply], t)| == |Undeleted(replies, t)| + if t == reply.thread then 1 else 0
  {
    assert Undeleted(replies + [reply], t) == Undeleted(replies, t) + if t == reply.thread then {|replies|} else {};
  }

  lemma RepliesCountedNewReply(threads: seq<Thread>, replies: seq<Reply>, reply: Reply)
    requires RepliesCounted(threads, replies) && reply.thread < |threads| && !reply.deleted
    ensures RepliesCounted(Bumped(threads, reply.thread, 1), replies + [reply])
  {
    forall t: nat | t < |threads|
      ensures |Undeleted(replies + [reply], t)| == |Undeleted(replies, t)| + if t == reply.thread then 1 else 0
    {
      UndeletedGrow(replies, reply, t);
    }
  }

  lemma RepliesCountedDelete(threads: seq<Thread>, replies: seq<Reply>, r: nat)
    requires RepliesCounted(threads, replies) && r < |replies| && !replies[r].deleted
    ensures RepliesCounted(Bumped(threads, replies[r].thread, -1), replies[r := replies[r].(deleted := true)])
  {
    var b := replies[r := replies[r].(deleted := true)];
    forall t: nat | t < |threads|
      ensures Undeleted(b, t) == Undeleted(replies, t) - if t == replies[r].thread then {r} else {}
    {
    }
    assert r in Undeleted(replies, replies[r].thread);
  }

  /** Every other operation leaves what the reply counters depend on. */
  lemma RepliesUntouched(s: State, op: Op)
    requires !op.CreateThread? && !op.CreateReply? && !op.DeleteReply?
    ensures var t := Apply(s, op);
      && |t.threads| == |s.threads| && |t.replies| == |s.replies|
      && (forall i | 0 <= i < |s.threads| ::
            s.threads[i].replies == t.threads[i].replies && (s.threads[i].gone ==> t.threads[i].gone))
      && (forall r | 0 <= r < |s.replies| ::
            s.replies[r].thread == t.replies[r].thread && s.replies[r].deleted == t.replies[r].deleted)
  {
  }

  lemma RepliesStep(s: State, op: Op)
    requires RepliesCounted(s.threads, s.replies)
    ensures RepliesCounted(Apply(s, op).threads, Apply(s, op).replies)
  {
    var after := Apply(s, op);
    match op
    case CreateThread(user, category) =>
      if CategoryThere(s, category) {
        RepliesCountedNewThread(s.threads, s.replies, Thread(user, category, false, false, false, 0, 0));
      }
    case CreateReply(t, user, parent) =>
      if ThreadFound(s, t) {
        RepliesCountedNewReply(s.threads, s.replies, Reply(user, t, parent, false, false, 0));
      }
    case DeleteReply(r, user) =>
      if ReplyFound(s, r) && s.replies[r].user == user {
        RepliesCountedDelete(s.threads, s.replies, r);
      }
    case _ =>
      RepliesUntouched(s, op);
      RepliesCountedStays(s.threads, after.threads, s.replies, after.replies);
  }

  // ---------------------------------------------------------------- every run

  lemma CacheStep(s: State, op: Op)
    requires CacheFresh(s)
    ensures CacheFresh(Apply(s, op))
  {
    if op.FindAll? {
      ListingIsRight(s.categories);
    }
  }

  lemma {:induction false} Invariant(ops: seq<Op>)
    ensures var s := After(ops);
      && ThreadsCounted(s.categories, s.threads) && CacheFresh(s)
      && ThreadLikesCounted(s.threads, s.threadLikes) && ReplyLikesCounted(s.replies, s.replyLikes)
      && RepliesCounted(s.threads, s.replies)
  {
    if ops != [] {
      var front, op := ops[..|ops| - 1], ops[|ops| - 1];
      Invariant(front);
      var s := After(front);
      ThreadsCountedStep(s, op);
      CacheStep(s, op);
      ThreadLikesStep(s, op);
      ReplyLikesStep(s, op);
      RepliesStep(s, op);
    }
  }

  /** In every run the thread counters of the categories and both kinds of like counters are
      exact. */
  lemma CountersAreExact(ops: seq<Op>)
    ensures var s := After(ops);
      && (forall c: nat | CategoryThere(s, c) :: s.categories[c].threadsCount == |LiveThreads(s.threads, c)|)
      && (forall t: nat | ThreadFound(s, t) :: s.threads[t].likes == |LikesOf(s.threadLikes, t)|)
      && (forall r: nat | ReplyFound(s, r) :: s.replies[r].likes == |LikesOf(s.replyLikes, r)|)
  {
    Invariant(ops);
  }

  /** The cached list, when there is one, is the table as it is, counters and order included. */
  lemma CachedListIsTheTable(ops: seq<Op>)
    requires After(ops).cache.Some?
    ensures IsListing(After(ops).cache.value, After(ops).categories)
  {
    Invariant(ops);
  }

  /** A reply counter exceeds the live replies by exactly those a cascade swept away; so it
      is right if and only if there are none. */
  lemma RepliesCountUnlessSwept(ops: seq<Op>, t: nat)
    requires t < |After(ops).threads| && !After(ops).threads[t].gone
    ensures var s := After(ops);
      && s.threads[t].replies == |LiveReplies(s.replies, t)| + |Swept(s.replies, t)|
      && (s.threads[t].replies == |LiveReplies(s.replies, t)| <==> Swept(s.replies, t) == {})
  {
    Invariant(ops);
    var replies := After(ops).replies;
    assert Undeleted(replies, t) == LiveReplies(replies, t) + Swept(replies, t);
  }

  // ---------------------------------------------------------------- when nothing is swept

  /** Every reply that names a parent names one of its own thread. The handler does not ask
      for it. */
  predicate Tidy(s: State, op: Op) {
    op.CreateReply? && op.parent.Some? && op.parent.value < |s.replies| ==>
      s.replies[op.parent.value].thread == op.thread
  }

  predicate AllTidy(ops: seq<Op>) {
    ops == [] || (AllTidy(ops[..|ops| - 1]) && Tidy(After(ops[..|ops| - 1]), ops[|ops| - 1]))
  }

  ghost predicate OwnThread(replies: seq<Reply>) {
    forall r | 0 <= r < |replies| && replies[r].parent.Some? ::
      replies[r].parent.value < r && replies[replies[r].parent.value].thread == replies[r].thread
  }

  lemma {:induction false} DoomedWithItsThread(replies: seq<Reply>, threads: seq<Thread>, c: nat, r: nat)
    requires OwnThread(replies) && r < |replies| && Doomed(replies, threads, c, r)
    ensures replies[r].thread < |threads| && threads[replies[r].thread].category == c
  {
    if !(replies[r].thread < |threads| && threads[replies[r].thread].category == c) {
      DoomedWithItsThread(replies, threads, c, replies[r].parent.value);
    }
  }

  ghost predicate GoneTogether(s: State) {
    forall r | 0 <= r < |s.replies| && s.replies[r].gone ::
      s.replies[r].thread < |s.threads| && s.threads[s.replies[r].thread].gone
  }

  lemma OwnThreadStays(a: seq<Reply>, b: seq<Reply>)
    requires OwnThread(a) && |a| == |b|
    requires forall r | 0 <= r < |a| :: a[r].thread == b[r].thread && a[r].parent == b[r].parent
    ensures OwnThread(b)
  {
  }

  lemma ParentsUntouched(s: State, op: Op)
    requires !op.CreateReply?
    ensures var t := Apply(s, op);
      |t.replies| == |s.replies| && forall r | 0 <= r < |s.replies| ::
        s.replies[r].thread == t.replies[r].thread && s.replies[r].parent == t.replies[r].parent
  {
  }

  lemma OwnThreadStep(s: State, op: Op)
    requires OwnThread(s.replies) && Tidy(s, op)
    ensures OwnThread(Apply(s, op).replies)
  {
    if !op.CreateReply? {
      ParentsUntouched(s, op);
      OwnThreadStays(s.replies, Apply(s, op).replies);
    }
  }

  lemma GoneTogetherStep(s: State, op: Op)
    requires OwnThread(s.replies) && GoneTogether(s)
    ensures GoneTogether(Apply(s, op))
  {
    if op.DeleteCategory? && CategoryThere(s, op.id) {
      forall r: nat | r < |s.replies| && Doomed(s.replies, s.threads, op.id, r)
        ensures s.replies[r].thread < |s.threads| && s.threads[s.replies[r].thread].category == op.id
      {
        DoomedWithItsThread(s.replies, s.threads, op.id, r);
      }
    }
  }

  lemma {:induction false} TidyRunsSweepNothing(ops: seq<Op>)
    requires AllTidy(ops)
    ensures OwnThread(After(ops).replies) && GoneTogether(After(ops))
  {
    if ops != [] {
      var front, op := ops[..|ops| - 1], ops[|ops| - 1];
      TidyRunsSweepNothing(front);
      OwnThreadStep(After(front), op);
      GoneTogetherStep(After(front), op);
    }
  }

  /** When every parent named is of the thread replied to, the reply counters are exact. */
  lemma RepliesCountIsExact(ops: seq<Op>, t: nat)
    requires AllTidy(ops) && t < |After(ops).threads| && !After(ops).threads[t].gone
    ensures After(ops).threads[t].replies == |LiveReplies(After(ops).replies, t)|
  {
    TidyRunsSweepNothing(ops);
    RepliesCountUnlessSwept(ops, t);
    assert Swept(After(ops).replies, t) == {};
  }

  /** Only the deletion of a category sweeps, and it sweeps from a surviving thread exactly
      the live replies that descend from a reply of the doomed threads. */
  lemma SweptStep(s: State, op: Op, t: nat)
    requires t < |s.threads| && !Apply(s, op).threads[t].gone
    ensures Swept(Apply(s, op).replies, t) == Swept(s.replies, t)
      + if op.DeleteCategory? && CategoryThere(s, op.id)
        then set r: nat | r in LiveReplies(s.replies, t) && Doomed(s.replies, s.threads, op.id, r) else {}
  {
    if op.DeleteReply? && ReplyFound(s, op.reply) && s.replies[op.reply].user == op.user {
      assert Swept(Apply(s, op).replies, t) == Swept(s.replies, t);
    }
  }

  /** The deletions of categories in the run that took a live reply away from the thread. */
  ghost predicate SweepsFrom(s: State, op: Op, t: nat) {
    op.DeleteCategory? && CategoryThere(s, op.id)
    && exists r :: r in LiveReplies(s.replies, t) && Doomed(s.replies, s.threads, op.id, r)
  }

  ghost predicate NeverSweepsFrom(ops: seq<Op>, t: nat) {
    ops == [] ||
    (NeverSweepsFrom(ops[..|ops| - 1], t) && !SweepsFrom(After(ops[..|ops| - 1]), ops[|ops| - 1], t))
  }

  lemma SweptGrows(s: State, op: Op, t: nat)
    requires t < |s.threads| && !Apply(s, op).threads[t].gone
    ensures Swept(Apply(s, op).replies, t) == {} <==> Swept(s.replies, t) == {} && !SweepsFrom(s, op, t)
  {
    SweptStep(s, op, t);
    if SweepsFrom(s, op, t) {
      var r :| r in LiveReplies(s.replies, t) && Doomed(s.replies, s.threads, op.id, r);
      assert r in Swept(Apply(s, op).replies, t);
    }
  }

  lemma ThreadsOnlyGrow(s: State, op: Op, t: nat)
    requires t < |s.threads|
    ensures t < |Apply(s, op).threads| && (s.threads[t].gone ==> Apply(s, op).threads[t].gone)
  {
  }

  /** Before a thread is there, no reply is in it. */
  lemma NothingInNewThread(ops: seq<Op>, t: nat)
    requires t >= |After(ops).threads|
    ensures LiveReplies(After(ops).replies, t) == {} && Swept(After(ops).replies, t) == {}
  {
    Invariant(ops);
  }

  lemma NewThreadUnswept(ops: seq<Op>, op: Op, t: nat)
    requires |After(ops).threads| <= t < |Apply(After(ops), op).threads|
    ensures Swept(Apply(After(ops), op).replies, t) == {} && !SweepsFrom(After(ops), op, t)
  {
    NothingInNewThread(ops, t);
  }

  lemma {:induction false} NeverSweptFromNothing(ops: seq<Op>, t: nat)
    requires t >= |After(ops).threads|
    ensures NeverSweepsFrom(ops, t)
  {
    if ops != [] {
      var before := ops[..|ops| - 1];
      if t < |After(before).threads| {
        ThreadsOnlyGrow(After(before), ops[|ops| - 1], t);
      }
      NeverSweptFromNothing(before, t);
      NothingInNewThread(before, t);
    }
  }

  lemma {:induction false} SweptOnlyByDeletions(ops: seq<Op>, t: nat)
    requires t < |After(ops).threads| && !After(ops).threads[t].gone
    ensures Swept(After(ops).replies, t) == {} <==> NeverSweepsFrom(ops, t)
  {
    if ops != [] {
      var before, op := ops[..|ops| - 1], ops[|ops| - 1];
      if t < |After(before).threads| {
        ThreadsOnlyGrow(After(before), op, t);
        SweptOnlyByDeletions(before, t);
        SweptGrows(After(before), op, t);
      } else {
        NewThreadUnswept(before, op, t);
        NeverSweptFromNothing(before, t);
      }
    }
  }

  /** So a thread's reply counter is right exactly when no deletion of a category in the run
      took one of its live replies away with a reply of the deleted threads. */
  lemma RepliesCountExactlyWhen(ops: seq<Op>, t: nat)
    requires t < |After(ops).threads| && !After(ops).threads[t].gone
    ensures After(ops).threads[t].replies == |LiveReplies(After(ops).replies, t)| <==> NeverSweepsFrom(ops, t)
  {
    RepliesCountUnlessSwept(ops, t);
    SweptOnlyByDeletions(ops, t);
  }

  lemma Next(ops: seq<Op>, op: Op)
    ensures After(ops + [op]) == Apply(After(ops), op)
  {
    assert (ops + [op])[..|ops|] == ops;
  }

  /** Two threads, in categories 0 and 1. */
  function TwoThreads(one: string, two: string, user: User, count0: int, count1: int, replies: seq<Reply>): State {
    State(
      [Category(one, one, 0, 1, false), Category(two, two, 0, 1, false)],
      [Thread(user, 0, false, false, false, count0, 0), Thread(user, 1, false, false, false, count1, 0)],
      replies, {}, {}, None)
  }

  lemma SetUpCategories(one: string, two: string) returns (ops: seq<Op>)
    requires one != two
    ensures After(ops) == State([Category(one, one, 0, 0, false), Category(two, two, 0, 0, false)], [], [], {}, {}, None)
  {
    Next([], CreateCategory(one, one));
    ops := [] + [CreateCategory(one, one)];
    assert After(ops) == State([Category(one, one, 0, 0, false)], [], [], {}, {}, None);
    Next(ops, CreateCategory(two, two));
    ops := ops + [CreateCategory(two, two)];
  }

  lemma AddFirstThread(s: State, one: string, two: string, user: User)
    requires s == State([Category(one, one, 0, 0, false), Category(two, two, 0, 0, false)], [], [], {}, {}, None)
    ensures Apply(s, CreateThread(user, 0)) == State(
      [Category(one, one, 0, 1, false), Category(two, two, 0, 0, false)],
      [Thread(user, 0, false, false, false, 0, 0)], [], {}, {}, None)
  {
    assert Recount(s.categories, 0, 1) == [Category(one, one, 0, 1, false), Category(two, two, 0, 0, false)];
  }

  lemma AddSecondThread(s: State, one: string, two: string, user: User)
    requires s == State(
      [Category(one, one, 0, 1, false), Category(two, two, 0, 0, false)],
      [Thread(user, 0, false, false, false, 0, 0)], [], {}, {}, None)
    ensures Apply(s, CreateThread(user, 1)) == TwoThreads(one, two, user, 0, 0, [])
  {
    assert Recount(s.categories, 1, 1) == [Category(one, one, 0, 1, false), Category(two, two, 0, 1, false)];
    assert s.threads + [Thread(user, 1, false, false, false, 0, 0)]
        == [Thread(user, 0, false, false, false, 0, 0), Thread(user, 1, false, false, false, 0, 0)];
  }

  lemma AddFirstReply(s: State, one: string, two: string, user: User)
    requires s == TwoThreads(one, two, user, 0, 0, [])
    ensures Apply(s, CreateReply(0, user, None)) == TwoThreads(one, two, user, 1, 0, [Reply(user, 0, None, false, false, 0)])
  {
    assert s.threads[0 := s.threads[0].(replies := 1)]
        == TwoThreads(one, two, user, 1, 0, []).threads;
  }

  /** The second reply names the first, of the other thread, as its parent. */
  lemma AddSecondReply(s: State, one: string, two: string, user: User)
    requires s == TwoThreads(one, two, user, 1, 0, [Reply(user, 0, None, false, false, 0)])
    ensures Apply(s, CreateReply(1, user, Some(0))) == TwoThreads(one, two, user, 1, 1,
      [Reply(user, 0, None, false, false, 0), Reply(user, 1, Some(0), false, false, 0)])
  {
    assert s.threads[1 := s.threads[1].(replies := 1)]
        == TwoThreads(one, two, user, 1, 1, []).threads;
    assert s.replies + [Reply(user, 1, Some(0), false, false, 0)]
        == [Reply(user, 0, None, false, false, 0), Reply(user, 1, Some(0), false, false, 0)];
  }

  lemma SweepAway(s: State, one: string, two: string, user: User)
    requires s == TwoThreads(one, two, user, 1, 1,
      [Reply(user, 0, None, false, false, 0), Reply(user, 1, Some(0), false, false, 0)])
    ensures var t := Apply(s, DeleteCategory(0));
      ThreadFound(t, 1) && t.threads[1].replies == 1 && LiveReplies(t.replies, 1) == {}
  {
    assert Doomed(s.replies, s.threads, 0, 0);
    assert Doomed(s.replies, s.threads, 0, 1);
  }

  /** It does happen: a reply naming a parent in another category's thread is taken away with
      that category, and its own thread still counts it. */
  lemma RepliesCountCanBeWrong(one: string, two: string, user: User) returns (ops: seq<Op>)
    requires one != two
    ensures ThreadFound(After(ops), 1)
    ensures After(ops).threads[1].replies == 1 && LiveReplies(After(ops).replies, 1) == {}
  {
    ops := SetUpCategories(one, two);
    AddFirstThread(After(ops), one, two, user);
    ops := Then(ops, CreateThread(user, 0));
    AddSecondThread(After(ops), one, two, user);
    ops := Then(ops, CreateThread(user, 1));
    AddFirstReply(After(ops), one, two, user);
    ops := Then(ops, CreateReply(0, user, None));
    AddSecondReply(After(ops), one, two, user);
    ops := Then(ops, CreateReply(1, user, Some(0)));
    SweepAway(After(ops), one, two, user);
    ops := Then(ops, DeleteCategory(0));
  }

  lemma Then(ops: seq<Op>, op: Op) returns (r: seq<Op>)
    ensures r == ops + [op] && After(r) == Apply(After(ops), op)
  {
    Next(ops, op);
    r := ops + [op];
  }

  // ---------------------------------------------------------------- what makes a row disappear

  /** `a` is the reply itself, its parent, the parent's parent, and so on. */
  ghost predicate Above(replies: seq<Reply>, a: nat, r: nat)
    requires r < |replies|
    decreases r
  {
    a == r || (replies[r].parent.Some? && replies[r].parent.value < r && Above(replies, a, replies[r].parent.value))
  }

  ghost predicate InCategory(replies: seq<Reply>, threads: seq<Thread>, c: nat, a: nat) {
    a < |replies| && replies[a].thread < |threads| && threads[replies[a].thread].category == c
  }

  /** The reply, or one above it, stands in a thread of the category. */
  ghost predicate TakenAway(replies: seq<Reply>, threads: seq<Thread>, c: nat, r: nat)
    requires r < |replies|
  {
    exists a: nat :: Above(replies, a, r) && InCategory(replies, threads, c, a)
  }

  /** The cascade reaches exactly those replies. */
  lemma {:induction false} DoomedExactlyWhen(replies: seq<Reply>, threads: seq<Thread>, c: nat, r: nat)
    requires r < |replies|
    ensures Doomed(replies, threads, c, r) <==> TakenAway(replies, threads, c, r)
    decreases r
  {
    assert Above(replies, r, r);
    assert InCategory(replies, threads, c, r) ==> TakenAway(replies, threads, c, r);
    if replies[r].parent.Some? && replies[r].parent.value < r {
      var p := replies[r].parent.value;
      DoomedExactlyWhen(replies, threads, c, p);
      assert forall a: nat :: Above(replies, a, r) <==> a == r || Above(replies, a, p);
    } else {
      assert forall a: nat :: Above(replies, a, r) <==> a == r;
    }
  }

  predicate RemovesThread(s: State, op: Op, t: nat)
    requires t < |s.threads|
  {
    || op == DeleteThread(t, s.threads[t].user)
    || (op == DeleteCategory(s.threads[t].category) && op.id < |s.categories| && !s.categories[op.id].gone)
  }

  ghost predicate RemovesReply(s: State, op: Op, r: nat)
    requires r < |s.replies|
  {
    || op == DeleteReply(r, s.replies[r].user)
    || (op.DeleteCategory? && op.id < |s.categories| && !s.categories[op.id].gone && TakenAway(s.replies, s.threads, op.id, r))
  }

  /** A thread that can be found disappears by its owner's deletion, or with its category,
      and by nothing else. */
  lemma ThreadDisappears(s: State, op: Op, t: nat)
    requires t < |s.threads|
    ensures t < |Apply(s, op).threads|
    ensures ThreadFound(Apply(s, op), t) <==> ThreadFound(s, t) && !RemovesThread(s, op, t)
  {
  }

  lemma SweptReply(s: State, c: nat, r: nat)
    requires c < |s.categories| && r < |s.replies|
    ensures |CategoryDeleted(s, c).replies| == |s.replies|
    ensures CategoryDeleted(s, c).replies[r]
      == s.replies[r].(gone := s.replies[r].gone || TakenAway(s.replies, s.threads, c, r))
  {
    DoomedExactlyWhen(s.replies, s.threads, c, r);
  }

  lemma SweptReplies(s: State, c: nat)
    requires c < |s.categories|
    ensures |CategoryDeleted(s, c).replies| == |s.replies|
    ensures forall r | 0 <= r < |s.replies| ::
      CategoryDeleted(s, c).replies[r] == s.replies[r].(gone := s.replies[r].gone || TakenAway(s.replies, s.threads, c, r))
  {
    forall r | 0 <= r < |s.replies| {
      SweptReply(s, c, r);
    }
  }

  /** So does a reply: by its owner's deletion, or with a thread it stands in or under. */
  lemma ReplyDisappears(s: State, op: Op, r: nat)
    requires r < |s.replies|
    ensures r < |Apply(s, op).replies|
    ensures ReplyFound(Apply(s, op), r) <==> ReplyFound(s, r) && !RemovesReply(s, op, r)
  {
    if op.DeleteCategory? && CategoryThere(s, op.id) {
      SweptReply(s, op.id, r);
    }
  }

  ghost predicate ThreadRemoved(ops: seq<Op>, t: nat) {
    ops != [] &&
    (var s := After(ops[..|ops| - 1]);
     ThreadRemoved(ops[..|ops| - 1], t) || (t < |s.threads| && RemovesThread(s, ops[|ops| - 1], t)))
  }

  ghost predicate ReplyRemoved(ops: seq<Op>, r: nat) {
    ops != [] &&
    (var s := After(ops[..|ops| - 1]);
     ReplyRemoved(ops[..|ops| - 1], r) || (r < |s.replies| && RemovesReply(s, ops[|ops| - 1], r)))
  }

  lemma NewThreadFound(s: State, op: Op, t: nat)
    requires |s.threads| <= t < |Apply(s, op).threads|
    ensures op.CreateThread? && ThreadFound(Apply(s, op), t)
  {
  }

  /** A new reply stands in a thread that could be found and was not locked. */
  lemma NewReplyFound(s: State, op: Op, r: nat)
    requires |s.replies| <= r < |Apply(s, op).replies|
    ensures op.CreateReply? && op.thread < |s.threads| && !s.threads[op.thread].locked && ThreadFound(s, op.thread)
    ensures ReplyFound(Apply(s, op), r) && Apply(s, op).replies[r].user == op.user && Apply(s, op).replies[r].thread == op.thread
  {
  }

  lemma {:induction false} NoThreadYet(ops: seq<Op>, t: nat)
    requires t >= |After(ops).threads|
    ensures !ThreadRemoved(ops, t)
    decreases |ops|
  {
    if ops != [] {
      var before := ops[..|ops| - 1];
      if t < |After(before).threads| {
        ThreadDisappears(After(before), ops[|ops| - 1], t);
      }
      NoThreadYet(before, t);
    }
  }

  lemma {:induction false} NoReplyYet(ops: seq<Op>, r: nat)
    requires r >= |After(ops).replies|
    ensures !ReplyRemoved(ops, r)
    decreases |ops|
  {
    if ops != [] {
      var before := ops[..|ops| - 1];
      if r < |After(before).replies| {
        ReplyDisappears(After(before), ops[|ops| - 1], r);
      }
      NoReplyYet(before, r);
    }
  }

  /** In every run a thread can be found exactly while neither its owner has deleted it nor
      has its category been deleted. */
  lemma {:induction false} ThreadFoundExactlyWhen(ops: seq<Op>, t: nat)
    requires t < |After(ops).threads|
    ensures ThreadFound(After(ops), t) <==> !ThreadRemoved(ops, t)
    decreases |ops|
  {
    if ops != [] {
      var before, op := ops[..|ops| - 1], ops[|ops| - 1];
      if t < |After(before).threads| {
        ThreadFoundExactlyWhen(before, t);
        ThreadDisappears(After(before), op, t);
      } else {
        NewThreadFound(After(before), op, t);
        NoThreadYet(before, t);
      }
    }
  }

  /** In every run a reply can be found exactly while neither its owner has deleted it nor has
      a category gone that holds its thread or the thread of a reply above it. */
  lemma {:induction false} ReplyFoundExactlyWhen(ops: seq<Op>, r: nat)
    requires r < |After(ops).replies|
    ensures ReplyFound(After(ops), r) <==> !ReplyRemoved(ops, r)
    decreases |ops|
  {
    if ops != [] {
      var before, op := ops[..|ops| - 1], ops[|ops| - 1];
      if r < |After(before).replies| {
        ReplyFoundExactlyWhen(before, r);
        ReplyDisappears(After(before), op, r);
      } else {
        NewReplyFound(After(before), op, r);
        NoReplyYet(before, r);
      }
    }
  }

  // ---------------------------------------------------------------- the services

  datatype Outcome = Done | NotFound | Conflict | Forbidden | Locked | BadParent

  method Query(table: seq<Category>) returns (list: seq<Listed>)
    ensures list == Listing(table) && IsListing(list, table)
  {
    ListingIsRight(table);
    list := Listing(table);
  }

  class ForumService {
    var categories: seq<Category>
    var threads: seq<Thread>
    var replies: seq<Reply>
    var threadLikes: Likes
    var replyLikes: Likes
    var cache: Option<seq<Listed>>

    ghost function Now(): State
      reads this
    {
      State(categories, threads, replies, threadLikes, replyLikes, cache)
    }

    constructor ()
      ensures Now() == INIT
    {
      categories, threads, replies := [], [], [];
      threadLikes, replyLikes, cache := {}, {}, None;
    }

    method InvalidateCache()
      modifies `cache
      ensures cache == None
    {
      cache := None;
    }

    method CreateCategory(name: string, slug: string) returns (outcome: Outcome)
      modifies `categories, `cache
      ensures Now() == Apply(old(Now()), Op.CreateCategory(name, slug))
      ensures outcome == Done || outcome == Conflict
      ensures outcome == Done <==> forall c | 0 <= c < |old(categories)| :: old(categories)[c].gone || old(categories)[c].slug != slug
      ensures categories == old(categories) + if outcome == Done then [Category(name, slug, 0, 0, false)] else []
      ensures cache == if outcome == Done then None else old(cache)
    {
      if SlugTaken(categories, slug) {
        return Conflict;
      }
      categories := categories + [Category(name, slug, 0, 0, false)];
      InvalidateCache();
      outcome := Done;
    }

    /** The list is the sorted table, whether or not it comes from the cache. */
    method FindAllCategories() returns (list: seq<Listed>)
      requires cache.Some? ==> IsListing(cache.value, categories)
      modifies `cache
      ensures cache == (if old(cache).Some? then old(cache) else Some(Listing(categories)))
      ensures cache == Some(list) && IsListing(list, categories)
    {
      if cache.Some? {
        return cache.value;
      }
      list := Query(categories);
      cache := Some(list);
    }

    method UpdateCategory(id: nat, name: Option<string>, slug: Option<string>) returns (outcome: Outcome)
      modifies `categories, `cache
      ensures Now() == Apply(old(Now()), Op.UpdateCategory(id, name, slug))
      ensures outcome == Done || outcome == NotFound || outcome == Conflict
      ensures outcome != NotFound <==> id < |old(categories)| && !old(categories)[id].gone
      ensures outcome == Conflict <==>
        && outcome != NotFound && slug.Some? && slug.value != "" && slug.value != old(categories)[id].slug
        && exists c | 0 <= c < |old(categories)| :: !old(categories)[c].gone && old(categories)[c].slug == slug.value
      ensures outcome != Done ==> categories == old(categories) && cache == old(cache)
      ensures outcome == Done ==> cache == None && categories == old(categories)[id := old(categories)[id].(
        name := match name case Some(given) => given case None => old(categories)[id].name,
        slug := match slug case Some(given) => given case None => old(categories)[id].slug)]
    {
      if id >= |categories| || categories[id].gone {
        return NotFound;
      }
      if slug.Some? && slug.value != "" && slug.value != categories[id].slug {
        if SlugTaken(categories, slug.value) {
          return Conflict;
        }
      }
      categories := categories[id := Updated(categories[id], name, slug)];
      InvalidateCache();
      outcome := Done;
    }

    method RemoveCategory(id: nat) returns (outcome: Outcome)
      modifies this
      ensures Now() == Apply(old(Now()), DeleteCategory(id))
      ensures outcome == if id < |old(categories)| && !old(categories)[id].gone then Done else NotFound
      ensures outcome == NotFound ==> Now() == old(Now())
      ensures |threads| == |old(threads)| && |replies| == |old(replies)|
      ensures outcome == Done ==> cache == None && categories == old(categories)[id := old(categories)[id].(gone := true)]
      ensures outcome == Done ==> forall t | 0 <= t < |threads| ::
        threads[t] == old(threads)[t].(gone := old(threads)[t].gone || old(threads)[t].category == id)
      ensures outcome == Done ==> forall r | 0 <= r < |replies| ::
        replies[r] == old(replies)[r].(gone := old(replies)[r].gone || TakenAway(old(replies), old(threads), id, r))
      ensures outcome == Done ==> forall like ::
        like in threadLikes <==> like in old(threadLikes) && like.0 < |threads| && !threads[like.0].gone
      ensures outcome == Done ==> forall like ::
        like in replyLikes <==> like in old(replyLikes) && like.0 < |replies| && !replies[like.0].gone
    {
      if id >= |categories| || categories[id].gone {
        return NotFound;
      }
      ghost var s := Now();
      replies := SweepReplies(replies, threads, id);
      threads := SweepThreads(threads, id);
      threadLikes := set like | like in threadLikes && like.0 < |threads| && !threads[like.0].gone;
      replyLikes := set like | like in replyLikes && like.0 < |replies| && !replies[like.0].gone;
      categories := categories[id := categories[id].(gone := true)];
      InvalidateCache();
      outcome := Done;
      SweptReplies(s, id);
    }

    method AddToThreadsCount(id: nat, n: int)
      modifies `categories, `cache
      ensures Now() == ThreadsCountBy(old(Now()), id, n)
    {
      if id < |categories| && !categories[id].gone {
        categories := categories[id := categories[id].(threadsCount := categories[id].threadsCount + n)];
      }
      InvalidateCache();
    }

    method AddToRepliesCount(t: nat, n: int)
      modifies `threads
      ensures Now() == RepliesBy(old(Now()), t, n)
    {
      if t < |threads| {
        threads := threads[t := threads[t].(replies := threads[t].replies + n)];
      }
    }

    method Create(user: User, category: nat) returns (outcome: Outcome)
      modifies `threads, `categories, `cache
      ensures Now() == Apply(old(Now()), CreateThread(user, category))
      ensures outcome == if category < |old(categories)| && !old(categories)[category].gone then Done else NotFound
      ensures outcome == NotFound ==> Now() == old(Now())
      ensures outcome == Done ==> threads == old(threads) + [Thread(user, category, false, false, false, 0, 0)] && cache == None
      ensures outcome == Done ==> categories == old(categories)[category :=
        old(categories)[category].(threadsCount := old(categories)[category].threadsCount + 1)]
    {
      if category >= |categories| || categories[category].gone {
        return NotFound;
      }
      threads := threads + [Thread(user, category, false, false, false, 0, 0)];
      AddToThreadsCount(category, 1);
      outcome := Done;
    }

    method Delete(t: nat, user: User) returns (outcome: Outcome)
      modifies `threads, `categories, `cache
      ensures Now() == Apply(old(Now()), DeleteThread(t, user))
      ensures outcome == if !(t < |old(threads)| && !old(threads)[t].deleted && !old(threads)[t].gone) then NotFound
                         else if old(threads)[t].user == user then Done else Forbidden
      ensures outcome != Done ==> Now() == old(Now())
      ensures outcome == Done ==> threads == old(threads)[t := old(threads)[t].(deleted := true)] && cache == None
      ensures outcome == Done ==> |categories| == |old(categories)| && forall c | 0 <= c < |categories| ::
        categories[c] == old(categories)[c].(threadsCount := old(categories)[c].threadsCount -
          if c == old(threads)[t].category && !old(categories)[c].gone then 1 else 0)
    {
      if t >= |threads| || threads[t].deleted || threads[t].gone {
        return NotFound;
      }
      var thread := threads[t];
      if thread.user != user {
        return Forbidden;
      }
      threads := threads[t := thread.(deleted := true)];
      AddToThreadsCount(thread.category, -1);
      outcome := Done;
    }

    /** `like` on a thread. */
    method Like(t: nat, user: User) returns (outcome: Outcome, isLiked: bool, likesCount: int)
      requires ThreadLikesCounted(threads, threadLikes)
      modifies `threads, `threadLikes
      ensures Now() == Apply(old(Now()), LikeThread(t, user))
      ensures outcome == if t < |old(threads)| && !old(threads)[t].deleted && !old(threads)[t].gone then Done else NotFound
      ensures outcome == NotFound ==> Now() == old(Now())
      ensures outcome == Done ==> isLiked == ((t, user) in threadLikes) == !((t, user) in old(threadLikes))
      ensures forall like | like != (t, user) :: like in threadLikes <==> like in old(threadLikes)
      ensures outcome == Done ==> likesCount == |set like | like in threadLikes && like.0 == t|
      ensures outcome == Done ==> threads == old(threads)[t := old(threads)[t].(likes := likesCount)]
    {
      if t >= |threads| || threads[t].deleted || threads[t].gone {
        return NotFound, false, 0;
      }
      ghost var s := Now();
      if (t, user) in threadLikes {
        threadLikes := threadLikes - {(t, user)};
        threads := threads[t := threads[t].(likes := threads[t].likes - 1)];
        isLiked := false;
      } else {
        threadLikes := threadLikes + {(t, user)};
        threads := threads[t := threads[t].(likes := threads[t].likes + 1)];
        isLiked := true;
      }
      outcome, likesCount := Done, threads[t].likes;
      ThreadLikesStep(s, LikeThread(t, user));
    }

    method CreateReply(t: nat, user: User, parent: Option<nat>) returns (outcome: Outcome)
      modifies `threads, `replies
      ensures Now() == Apply(old(Now()), Op.CreateReply(t, user, parent))
      ensures outcome == if !(t < |old(threads)| && !old(threads)[t].deleted && !old(threads)[t].gone) then NotFound
                         else if old(threads)[t].locked then Locked
                         else if parent == None then Done
                         else if parent.value < |old(replies)| && !old(replies)[parent.value].gone then Done else BadParent
      ensures outcome != Done ==> Now() == old(Now())
      ensures outcome == Done ==> replies == old(replies) + [Reply(user, t, parent, false, false, 0)]
      ensures outcome == Done ==> threads == old(threads)[t := old(threads)[t].(replies := old(threads)[t].replies + 1)]
    {
      if t >= |threads| || threads[t].deleted || threads[t].gone {
        return NotFound;
      }
      if threads[t].locked {
        return Locked;
      }
      if parent.Some? && (parent.value >= |replies| || replies[parent.value].gone) {
        return BadParent;
      }
      replies := replies + [Reply(user, t, parent, false, false, 0)];
      threads := threads[t := threads[t].(replies := threads[t].replies + 1)];
      outcome := Done;
    }

    method RemoveReply(r: nat, user: User) returns (outcome: Outcome)
      modifies `threads, `replies
      ensures Now() == Apply(old(Now()), DeleteReply(r, user))
      ensures outcome == if !(r < |old(replies)| && !old(replies)[r].deleted && !old(replies)[r].gone) then NotFound
                         else if old(replies)[r].user == user then Done else Forbidden
      ensures outcome != Done ==> Now() == old(Now())
      ensures outcome == Done ==> replies == old(replies)[r := old(replies)[r].(deleted := true)]
      ensures outcome == Done ==> |threads| == |old(threads)| && forall t | 0 <= t < |threads| ::
        threads[t] == old(threads)[t].(replies := old(threads)[t].replies - if t == old(replies)[r].thread then 1 else 0)
    {
      if r >= |replies| || replies[r].deleted || replies[r].gone {
        return NotFound;
      }
      var reply := replies[r];
      if reply.user != user {
        return Forbidden;
      }
      replies := replies[r := reply.(deleted := true)];
      AddToRepliesCount(reply.thread, -1);
      outcome := Done;
    }

    /** `likeReply`. */
    method LikeReply(r: nat, user: User) returns (outcome: Outcome, isLiked: bool, likesCount: int)
      requires ReplyLikesCounted(replies, replyLikes)
      modifies `replies, `replyLikes
      ensures Now() == Apply(old(Now()), Op.LikeReply(r, user))
      ensures outcome == if r < |old(replies)| && !old(replies)[r].deleted && !old(replies)[r].gone then Done else NotFound
      ensures outcome == NotFound ==> Now() == old(Now())
      ensures outcome == Done ==> isLiked == ((r, user) in replyLikes) == !((r, user) in old(replyLikes))
      ensures forall like | like != (r, user) :: like in replyLikes <==> like in old(replyLikes)
      ensures outcome == Done ==> likesCount == |set like | like in replyLikes && like.0 == r|
      ensures outcome == Done ==> replies == old(replies)[r := old(replies)[r].(likes := likesCount)]
    {
      if r >= |replies| || replies[r].deleted || replies[r].gone {
        return NotFound, false, 0;
      }
      ghost var s := Now();
      if (r, user) in replyLikes {
        replyLikes := replyLikes - {(r, user)};
        replies := replies[r := replies[r].(likes := replies[r].likes - 1)];
        isLiked := false;
      } else {
        replyLikes := replyLikes + {(r, user)};
        replies := replies[r := replies[r].(likes := replies[r].likes + 1)];
        isLiked := true;
      }
      outcome, likesCount := Done, replies[r].likes;
      ReplyLikesStep(s, Op.LikeReply(r, user));
    }
  }
}
