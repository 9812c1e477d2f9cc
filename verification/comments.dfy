/** Comments two levels deep, with a reply counter per comment and a comment counter per
    post (comments.service.ts), one handler at a time. Rows are only ever soft-deleted:
    reads pass over such rows, increments and decrements still reach them. */
module Comments {
  import opened Options
  import opened Sums

  type Id = string
  type User = string

  datatype Comment = Comment(user: User, post: Id, parent: Option<Id>, replies: int, deleted: bool)

  datatype Post = Post(comments: int, deleted: bool)

  /** `atDeletion` remembers the reply counter each deleted comment had at that moment. */
  datatype State = State(comments: map<Id, Comment>, posts: map<Id, Post>, atDeletion: map<Id, int>)

  datatype Outcome = Done | PostNotFound | ParentNotFound | CommentNotFound | Forbidden

  datatype Op =
    | NewPost(post: Id)
    | DropPost(post: Id)
    | Create(id: Id, user: User, post: Id, parent: Option<Id>)
    | Delete(id: Id, user: User)

  const INIT := State(map[], map[], map[])

  predicate Live(s: State, id: Id) { id in s.comments && !s.comments[id].deleted }

  // ---------------------------------------------------------------- what the handlers do

  function CreateOutcome(s: State, post: Id, parent: Option<Id>): Outcome {
    if post !in s.posts || s.posts[post].deleted then PostNotFound
    else if parent.Some? && !(Live(s, parent.value) && s.comments[parent.value].post == post) then ParentNotFound
    else Done
  }

  /** A reply to a reply is hung under the reply's own parent. */
  function ActualParent(s: State, parent: Option<Id>): Option<Id> {
    if parent.Some? && parent.value in s.comments && s.comments[parent.value].parent.Some?
    then s.comments[parent.value].parent else parent
  }

  function WithReplies(s: State, parent: Option<Id>, n: int): State {
    if parent.Some? && parent.value in s.comments
    then s.(comments := s.comments[parent.value := s.comments[parent.value].(replies := s.comments[parent.value].replies + n)])
    else s
  }

  function WithComments(s: State, post: Id, n: int): State {
    if post in s.posts then s.(posts := s.posts[post := s.posts[post].(comments := s.posts[post].comments + n)]) else s
  }

  function Created(s: State, id: Id, user: User, post: Id, parent: Option<Id>): State {
    if CreateOutcome(s, post, parent) != Done then s
    else
      var actual := ActualParent(s, parent);
      var saved := s.(comments := s.comments[id := Comment(user, post, actual, 0, false)]);
      WithComments(WithReplies(saved, actual, 1), post, 1)
  }

  function DeleteOutcome(s: State, id: Id, user: User): Outcome {
    if !Live(s, id) then CommentNotFound
    else if s.comments[id].user != user then Forbidden
    else Done
  }

  function Deleted(s: State, id: Id, user: User): State {
    if DeleteOutcome(s, id, user) != Done then s
    else
      var c := s.comments[id];
      var marked := s.(comments := s.comments[id := c.(deleted := true)], atDeletion := s.atDeletion[id := c.replies]);
      WithComments(WithReplies(marked, c.parent, -1), c.post, -1 - (if c.replies > 0 then c.replies else 0))
  }

  predicate Enabled(s: State, op: Op) {
    match op
    case NewPost(post) => post !in s.posts
    case DropPost(post) => post in s.posts
    case Create(id, _, _, _) => id !in s.comments
    case Delete(_, _) => true
  }

  function Apply(s: State, op: Op): State {
    match op
    case NewPost(post) => s.(posts := s.posts[post := Post(0, false)])
    case DropPost(post) => if post in s.posts then s.(posts := s.posts[post := s.posts[post].(deleted := true)]) else s
    case Create(id, user, post, parent) => Created(s, id, user, post, parent)
    case Delete(id, user) => Deleted(s, id, user)
  }

  ghost predicate Legal(ops: seq<Op>)
    decreases |ops|, 0
  {
    ops == [] || (Legal(ops[..|ops| - 1]) && Enabled(After(ops[..|ops| - 1]), ops[|ops| - 1]))
  }

  ghost function After(ops: seq<Op>): State
    requires Legal(ops)
    decreases |ops|, 1
  {
    if ops == [] then INIT else Apply(After(ops[..|ops| - 1]), ops[|ops| - 1])
  }

  // ---------------------------------------------------------------- the tree

  type Table = map<Id, Comment>

  ghost function LiveReplies(c: Table, id: Id): set<Id> {
    set i | i in c && c[i].parent == Some(id) && !c[i].deleted
  }

  /** A reply hangs under a root of its own post. */
  ghost predicate WellHung(c: Table, i: Id)
    requires i in c
  {
    c[i].parent.Some? ==>
      c[i].parent.value in c && c[c[i].parent.value].parent.None? && c[c[i].parent.value].post == c[i].post
  }

  ghost predicate RowOk(c: Table, i: Id)
    requires i in c
  {
    WellHung(c, i) && c[i].replies == |LiveReplies(c, i)|
  }

  ghost predicate TableOk(c: Table) {
    forall i :: i in c ==> RowOk(c, i)
  }

  ghost predicate Tree(s: State) {
    TableOk(s.comments) && Referenced(s)
  }

  function Bump(c: Table, parent: Option<Id>, n: int): Table {
    if parent.Some? && parent.value in c
    then c[parent.value := c[parent.value].(replies := c[parent.value].replies + n)] else c
  }

  lemma BumpKeepsReplies(c: Table, parent: Option<Id>, n: int, i: Id)
    ensures LiveReplies(Bump(c, parent, n), i) == LiveReplies(c, i)
  {
  }

  lemma InsertReplies(c: Table, id: Id, row: Comment, i: Id)
    requires id !in c && !row.deleted
    ensures LiveReplies(c[id := row], i) == LiveReplies(c, i) + (if row.parent == Some(i) then {id} else {})
    ensures |LiveReplies(c[id := row], i)| == |LiveReplies(c, i)| + (if row.parent == Some(i) then 1 else 0)
  {
    assert id !in LiveReplies(c, i);
  }

  lemma MarkReplies(c: Table, id: Id, i: Id)
    requires id in c && !c[id].deleted
    ensures LiveReplies(c[id := c[id].(deleted := true)], i) == LiveReplies(c, i) - (if c[id].parent == Some(i) then {id} else {})
    ensures |LiveReplies(c[id := c[id].(deleted := true)], i)| == |LiveReplies(c, i)| - (if c[id].parent == Some(i) then 1 else 0)
  {
    assert c[id].parent == Some(i) ==> id in LiveReplies(c, i);
  }

  /** The rows a successful creation leaves. */
  lemma CreateEffect(s: State, id: Id, user: User, post: Id, parent: Option<Id>)
    requires Tree(s) && id !in s.comments && CreateOutcome(s, post, parent) == Done
    ensures var t, p := Created(s, id, user, post, parent), ActualParent(s, parent);
      && (p.Some? ==> p.value in s.comments && s.comments[p.value].parent.None? && s.comments[p.value].post == post)
      && t.comments == Bump(s.comments[id := Comment(user, post, p, 0, false)], p, 1)
      && t.atDeletion == s.atDeletion
      && t.posts == s.posts[post := s.posts[post].(comments := s.posts[post].comments + 1)]
  {
    if parent.Some? {
      assert RowOk(s.comments, parent.value);
    }
  }

  lemma NoRepliesTo(c: Table, id: Id)
    requires TableOk(c) && (id in c ==> c[id].parent.Some?)
    ensures LiveReplies(c, id) == {}
  {
    assert forall j :: j in c ==> RowOk(c, j);
  }

  lemma TableInsert(c: Table, id: Id, row: Comment, i: Id)
    requires TableOk(c) && id !in c && !row.deleted && row.replies == 0
    requires row.parent.Some? ==> row.parent.value in c && c[row.parent.value].parent.None? && c[row.parent.value].post == row.post
    requires i in c || i == id
    ensures RowOk(Bump(c[id := row], row.parent, 1), i)
  {
    BumpKeepsReplies(c[id := row], row.parent, 1, i);
    InsertReplies(c, id, row, i);
    if i == id {
      NoRepliesTo(c, id);
    } else {
      assert RowOk(c, i);
    }
  }

  lemma TableMark(c: Table, id: Id, i: Id)
    requires TableOk(c) && id in c && !c[id].deleted && i in c
    ensures RowOk(Bump(c[id := c[id].(deleted := true)], c[id].parent, -1), i)
  {
    assert RowOk(c, i) && RowOk(c, id);
    BumpKeepsReplies(c[id := c[id].(deleted := true)], c[id].parent, -1, i);
    MarkReplies(c, id, i);
  }

  lemma TableInsertAll(c: Table, id: Id, row: Comment)
    requires TableOk(c) && id !in c && !row.deleted && row.replies == 0
    requires row.parent.Some? ==> row.parent.value in c && c[row.parent.value].parent.None? && c[row.parent.value].post == row.post
    ensures TableOk(Bump(c[id := row], row.parent, 1))
  {
    forall i | i in c || i == id { TableInsert(c, id, row, i); }
  }

  lemma TableMarkAll(c: Table, id: Id)
    requires TableOk(c) && id in c && !c[id].deleted
    ensures TableOk(Bump(c[id := c[id].(deleted := true)], c[id].parent, -1))
  {
    forall i | i in c { TableMark(c, id, i); }
  }

  /** The part of the invariant that is not about the rows alone. */
  ghost predicate Referenced(s: State) {
    && (forall i :: i in s.comments ==> s.comments[i].post in s.posts)
    && (forall i :: i in s.atDeletion <==> i in s.comments && s.comments[i].deleted)
  }

  lemma ReferencedCreate(s: State, t: State, id: Id, row: Comment)
    requires Referenced(s) && id !in s.comments && !row.deleted && row.post in s.posts
    requires t.comments == Bump(s.comments[id := row], row.parent, 1)
    requires t.atDeletion == s.atDeletion && t.posts.Keys == s.posts.Keys
    ensures Referenced(t)
  {
  }

  lemma ReferencedDelete(s: State, t: State, id: Id)
    requires Referenced(s) && id in s.comments
    requires t.comments == Bump(s.comments[id := s.comments[id].(deleted := true)], s.comments[id].parent, -1)
    requires t.atDeletion.Keys == s.atDeletion.Keys + {id} && t.posts.Keys == s.posts.Keys
    ensures Referenced(t)
  {
  }

  lemma TreeCreate(s: State, id: Id, user: User, post: Id, parent: Option<Id>)
    requires Tree(s) && id !in s.comments && CreateOutcome(s, post, parent) == Done
    ensures Tree(Created(s, id, user, post, parent))
  {
    var row := Comment(user, post, ActualParent(s, parent), 0, false);
    CreateEffect(s, id, user, post, parent);
    TableInsertAll(s.comments, id, row);
    ReferencedCreate(s, Created(s, id, user, post, parent), id, row);
  }

  /** The rows a successful deletion leaves; a reply has no replies of its own. */
  lemma DeleteEffect(s: State, id: Id, user: User)
    requires Tree(s) && DeleteOutcome(s, id, user) == Done
    ensures var t, c := Deleted(s, id, user), s.comments[id];
      && (c.parent.Some? ==> c.replies == 0)
      && t.comments == Bump(s.comments[id := c.(deleted := true)], c.parent, -1)
      && t.atDeletion == s.atDeletion[id := c.replies]
      && t.posts == s.posts[c.post := s.posts[c.post].(comments := s.posts[c.post].comments - 1 - c.replies)]
  {
    assert RowOk(s.comments, id);
    if s.comments[id].parent.Some? {
      NoRepliesTo(s.comments, id);
    }
  }

  lemma TreeDelete(s: State, id: Id, user: User)
    requires Tree(s) && DeleteOutcome(s, id, user) == Done
    ensures Tree(Deleted(s, id, user))
  {
    DeleteEffect(s, id, user);
    TableMarkAll(s.comments, id);
    ReferencedDelete(s, Deleted(s, id, user), id);
  }

  lemma TreeStep(s: State, op: Op)
    requires Tree(s) && Enabled(s, op)
    ensures Tree(Apply(s, op))
  {
    match op
    case Create(id, user, post, parent) =>
      if CreateOutcome(s, post, parent) == Done { TreeCreate(s, id, user, post, parent); }
    case Delete(id, user) =>
      if DeleteOutcome(s, id, user) == Done { TreeDelete(s, id, user); }
    case NewPost(_) =>
    case DropPost(_) =>
  }

  /** In every run: a reply's parent is a root of the same post, and each reply counter,
      of deleted comments too, is the number of live replies. */
  lemma {:induction false} TreeAlways(ops: seq<Op>)
    requires Legal(ops)
    ensures Tree(After(ops))
    decreases |ops|
  {
    if ops != [] {
      TreeAlways(ops[..|ops| - 1]);
      TreeStep(After(ops[..|ops| - 1]), ops[|ops| - 1]);
    }
  }

  /** The root under which a comment is shown. */
  ghost function Thread(c: Table, i: Id): Id
    requires i in c
  {
    match c[i].parent
    case None => i
    case Some(root) => root
  }

  lemma AnswerEffect(c: Table, id: Id, row: Comment, r: Id)
    requires id !in c && r in c && !row.deleted && row.parent == Some(r)
    ensures var d := Bump(c[id := row], Some(r), 1);
      && d.Keys == c.Keys + {id} && d[id] == row
      && d[r] == c[r].(replies := c[r].replies + 1)
      && (forall i | i in c && i != r :: d[i] == c[i])
      && LiveReplies(d, r) == LiveReplies(c, r) + {id}
  {
    InsertReplies(c, id, row, r);
    BumpKeepsReplies(c[id := row], Some(r), 1, r);
  }

  /** A comment that answers another joins its thread and is counted at the thread's root;
      no other row changes. */
  lemma AnswerJoinsThread(s: State, id: Id, user: User, post: Id, a: Id)
    requires Tree(s) && id !in s.comments && post in s.posts && !s.posts[post].deleted
    requires a in s.comments && !s.comments[a].deleted && s.comments[a].post == post
    ensures var c, d, r := s.comments, Apply(s, Create(id, user, post, Some(a))).comments, Thread(s.comments, a);
      && r in c && d.Keys == c.Keys + {id}
      && d[id] == Comment(user, post, Some(r), 0, false)
      && d[r] == c[r].(replies := c[r].replies + 1)
      && (forall i | i in c && i != r :: d[i] == c[i])
      && LiveReplies(d, r) == LiveReplies(c, r) + {id}
  {
    CreateEffect(s, id, user, post, Some(a));
    var r := Thread(s.comments, a);
    assert ActualParent(s, Some(a)) == Some(r);
    AnswerEffect(s.comments, id, Comment(user, post, Some(r), 0, false), r);
  }

  /** A step makes a live comment disappear exactly when it is the owner's deletion. */
  lemma OnlyTheOwnerDeletes(s: State, op: Op, id: Id)
    requires Tree(s) && Enabled(s, op) && id in s.comments
    ensures var t := Apply(s, op);
      && id in t.comments && t.comments[id].user == s.comments[id].user
      && t.comments[id].post == s.comments[id].post && t.comments[id].parent == s.comments[id].parent
      && (t.comments[id].deleted <==> s.comments[id].deleted || op == Delete(id, s.comments[id].user))
  {
    match op
    case Create(i, user, post, parent) =>
      if CreateOutcome(s, post, parent) == Done { CreatedRows(s, i, user, post, parent); }
    case Delete(i, user) =>
      if DeleteOutcome(s, i, user) == Done { DeletedRows(s, i, user); }
    case _ =>
  }

  /** At some moment of the run the owner of the comment deleted it. */
  ghost predicate DeletedByOwner(ops: seq<Op>, id: Id)
    requires Legal(ops)
    decreases |ops|
  {
    ops != [] &&
    (var s := After(ops[..|ops| - 1]);
     DeletedByOwner(ops[..|ops| - 1], id) || (id in s.comments && ops[|ops| - 1] == Delete(id, s.comments[id].user)))
  }

  lemma {:induction false} NotDeletedYet(ops: seq<Op>, id: Id)
    requires Legal(ops) && id !in After(ops).comments
    ensures !DeletedByOwner(ops, id)
    decreases |ops|
  {
    if ops != [] {
      CommentsStay(After(ops[..|ops| - 1]), ops[|ops| - 1], id);
      NotDeletedYet(ops[..|ops| - 1], id);
    }
  }

  lemma CommentsStay(s: State, op: Op, id: Id)
    ensures id in s.comments ==> id in Apply(s, op).comments
  {
  }

  /** In every run a comment is gone exactly when its owner deleted it. */
  lemma {:induction false} DeletedExactlyByTheOwner(ops: seq<Op>, id: Id)
    requires Legal(ops) && id in After(ops).comments
    ensures After(ops).comments[id].deleted <==> DeletedByOwner(ops, id)
    decreases |ops|
  {
    if ops != [] {
      var before, op := ops[..|ops| - 1], ops[|ops| - 1];
      TreeAlways(before);
      if id in After(before).comments {
        DeletedExactlyByTheOwner(before, id);
        OnlyTheOwnerDeletes(After(before), op, id);
      } else {
        NewCommentIsLive(After(before), op, id);
        NotDeletedYet(before, id);
      }
    }
  }

  lemma NewCommentIsLive(s: State, op: Op, id: Id)
    requires Tree(s) && Enabled(s, op) && id !in s.comments && id in Apply(s, op).comments
    ensures op.Create? && !Apply(s, op).comments[id].deleted
  {
    match op
    case Create(i, user, post, parent) =>
      if CreateOutcome(s, post, parent) == Done { CreateEffect(s, i, user, post, parent); }
    case Delete(i, user) =>
      if DeleteOutcome(s, i, user) == Done { DeleteEffect(s, i, user); }
    case _ =>
  }

  // ---------------------------------------------------------------- the comment counter

  predicate RootOf(c: Table, i: Id, post: Id) {
    i in c && c[i].parent.None? && c[i].post == post
  }

  /** What each live root of the post contributes: itself and its replies. */
  ghost function LiveRoots(c: Table, post: Id): map<Id, int> {
    map i | i in c && RootOf(c, i, post) && !c[i].deleted :: 1 + c[i].replies
  }

  /** What each deleted root contributes: how its replies changed since its deletion. */
  ghost function DeadRoots(c: Table, atDeletion: map<Id, int>, post: Id): map<Id, int> {
    map i | i in c && RootOf(c, i, post) && c[i].deleted :: c[i].replies - (if i in atDeletion then atDeletion[i] else 0)
  }

  ghost function Drift(s: State, post: Id): int {
    Sum(DeadRoots(s.comments, s.atDeletion, post))
  }

  ghost predicate Counted(s: State, post: Id) {
    post in s.posts ==> s.posts[post].comments == Sum(LiveRoots(s.comments, post)) + Drift(s, post)
  }

  lemma BumpMovesLive(c: Table, p: Id, n: int, post: Id)
    requires p in c && c[p].parent.None?
    ensures Sum(LiveRoots(Bump(c, Some(p), n), post))
         == Sum(LiveRoots(c, post)) + (if c[p].post == post && !c[p].deleted then n else 0)
  {
    var d, live := Bump(c, Some(p), n), LiveRoots(c, post);
    if c[p].post == post && !c[p].deleted {
      assert LiveRoots(d, post) == live[p := live[p] + n];
      SumUpdate(live, p, live[p] + n);
    } else {
      assert LiveRoots(d, post) == live;
    }
  }

  lemma BumpMovesDead(c: Table, at: map<Id, int>, p: Id, n: int, post: Id)
    requires p in c && c[p].parent.None?
    ensures Sum(DeadRoots(Bump(c, Some(p), n), at, post))
         == Sum(DeadRoots(c, at, post)) + (if c[p].post == post && c[p].deleted then n else 0)
  {
    var d, dead := Bump(c, Some(p), n), DeadRoots(c, at, post);
    if c[p].post == post && c[p].deleted {
      assert DeadRoots(d, at, post) == dead[p := dead[p] + n];
      SumUpdate(dead, p, dead[p] + n);
    } else {
      assert DeadRoots(d, at, post) == dead;
    }
  }

  /** One more or one less reply under a root moves exactly one of the two sums. */
  lemma BumpMoves(c: Table, at: map<Id, int>, p: Id, n: int, post: Id)
    requires p in c && c[p].parent.None?
    ensures var d := Bump(c, Some(p), n);
      && Sum(LiveRoots(d, post)) == Sum(LiveRoots(c, post)) + (if c[p].post == post && !c[p].deleted then n else 0)
      && Sum(DeadRoots(d, at, post)) == Sum(DeadRoots(c, at, post)) + (if c[p].post == post && c[p].deleted then n else 0)
  {
    BumpMovesLive(c, p, n, post);
    BumpMovesDead(c, at, p, n, post);
  }

  lemma InsertMovesLive(c: Table, id: Id, row: Comment, post: Id)
    requires id !in c && !row.deleted && row.replies == 0
    ensures Sum(LiveRoots(c[id := row], post)) == Sum(LiveRoots(c, post)) + (if row.parent.None? && row.post == post then 1 else 0)
  {
    var d := c[id := row];
    if row.parent.None? && row.post == post {
      assert LiveRoots(d, post) == LiveRoots(c, post)[id := 1];
      SumUpdate(LiveRoots(c, post), id, 1);
    } else {
      assert LiveRoots(d, post) == LiveRoots(c, post);
    }
  }

  lemma InsertMoves(c: Table, at: map<Id, int>, id: Id, row: Comment, post: Id)
    requires id !in c && !row.deleted && row.replies == 0
    ensures Sum(LiveRoots(c[id := row], post)) == Sum(LiveRoots(c, post)) + (if row.parent.None? && row.post == post then 1 else 0)
    ensures Sum(DeadRoots(c[id := row], at, post)) == Sum(DeadRoots(c, at, post))
  {
    InsertMovesLive(c, id, row, post);
    assert DeadRoots(c[id := row], at, post) == DeadRoots(c, at, post);
  }

  lemma MarkMovesLive(c: Table, id: Id, post: Id)
    requires id in c && !c[id].deleted
    ensures Sum(LiveRoots(c[id := c[id].(deleted := true)], post))
         == Sum(LiveRoots(c, post)) - (if RootOf(c, id, post) then 1 + c[id].replies else 0)
  {
    var d, live := c[id := c[id].(deleted := true)], LiveRoots(c, post);
    if RootOf(c, id, post) {
      assert LiveRoots(d, post) == live - {id};
      SumTakesOut(live, id);
    } else {
      assert LiveRoots(d, post) == live;
    }
  }

  lemma MarkMovesDead(c: Table, at: map<Id, int>, id: Id, post: Id)
    requires id in c && !c[id].deleted && id !in at
    ensures Sum(DeadRoots(c[id := c[id].(deleted := true)], at[id := c[id].replies], post)) == Sum(DeadRoots(c, at, post))
  {
    var d, at' := c[id := c[id].(deleted := true)], at[id := c[id].replies];
    var dead := DeadRoots(c, at, post);
    if RootOf(c, id, post) {
      assert DeadRoots(d, at', post) == dead[id := 0];
      SumUpdate(dead, id, 0);
    } else {
      assert DeadRoots(d, at', post) == dead;
    }
  }

  /** A root that is deleted leaves the first sum with all it contributed, and enters the
      second with nothing. */
  lemma MarkMoves(c: Table, at: map<Id, int>, id: Id, post: Id)
    requires id in c && !c[id].deleted && id !in at
    ensures var d, at' := c[id := c[id].(deleted := true)], at[id := c[id].replies];
      && Sum(LiveRoots(d, post)) == Sum(LiveRoots(c, post)) - (if RootOf(c, id, post) then 1 + c[id].replies else 0)
      && Sum(DeadRoots(d, at', post)) == Sum(DeadRoots(c, at, post))
  {
    MarkMovesLive(c, id, post);
    MarkMovesDead(c, at, id, post);
  }

  lemma CreateMoves(s: State, id: Id, user: User, post: Id, parent: Option<Id>, q: Id)
    requires Tree(s) && id !in s.comments && CreateOutcome(s, post, parent) == Done
    ensures var t, p := Created(s, id, user, post, parent), ActualParent(s, parent);
      var n := if post == q then 1 else 0;
      && Sum(LiveRoots(t.comments, q)) == Sum(LiveRoots(s.comments, q)) + (if p.None? || Live(s, p.value) then n else 0)
      && Drift(t, q) == Drift(s, q) + (if p.None? || Live(s, p.value) then 0 else n)
  {
    var p := ActualParent(s, parent);
    CreateEffect(s, id, user, post, parent);
    var row := Comment(user, post, p, 0, false);
    InsertMoves(s.comments, s.atDeletion, id, row, q);
    if p.Some? {
      BumpMoves(s.comments[id := row], s.atDeletion, p.value, 1, q);
    }
  }

  lemma DeleteMoves(s: State, id: Id, user: User, q: Id)
    requires Tree(s) && DeleteOutcome(s, id, user) == Done
    ensures var t, c := Deleted(s, id, user), s.comments[id];
      var n := if c.post == q then 1 else 0;
      && Sum(LiveRoots(t.comments, q)) == Sum(LiveRoots(s.comments, q)) -
           (if c.parent.None? then n * (1 + c.replies) else if Live(s, c.parent.value) then n else 0)
      && Drift(t, q) == Drift(s, q) - (if c.parent.None? || Live(s, c.parent.value) then 0 else n)
  {
    var c := s.comments[id];
    DeleteEffect(s, id, user);
    assert RowOk(s.comments, id);
    MarkMoves(s.comments, s.atDeletion, id, q);
    if c.parent.Some? {
      BumpMoves(s.comments[id := c.(deleted := true)], s.atDeletion[id := c.replies], c.parent.value, -1, q);
    }
  }

  lemma CountedCreate(s: State, id: Id, user: User, post: Id, parent: Option<Id>, q: Id)
    requires Tree(s) && Counted(s, q) && id !in s.comments && CreateOutcome(s, post, parent) == Done
    ensures Counted(Created(s, id, user, post, parent), q)
  {
    CreateEffect(s, id, user, post, parent);
    CreateMoves(s, id, user, post, parent, q);
  }

  lemma CountedDelete(s: State, id: Id, user: User, q: Id)
    requires Tree(s) && Counted(s, q) && DeleteOutcome(s, id, user) == Done
    ensures Counted(Deleted(s, id, user), q)
  {
    DeleteEffect(s, id, user);
    DeleteMoves(s, id, user, q);
    assert RowOk(s.comments, id);
  }

  lemma CountedStep(s: State, op: Op, q: Id)
    requires Tree(s) && Counted(s, q) && Enabled(s, op)
    ensures Counted(Apply(s, op), q)
  {
    match op
    case Create(id, user, post, parent) =>
      if CreateOutcome(s, post, parent) == Done { CountedCreate(s, id, user, post, parent, q); }
    case Delete(id, user) =>
      if DeleteOutcome(s, id, user) == Done { CountedDelete(s, id, user, q); }
    case NewPost(post) =>
      assert q == post ==> LiveRoots(s.comments, q) == map[] && DeadRoots(s.comments, s.atDeletion, q) == map[];
    case DropPost(_) =>
  }

  /** In every run, the comment counter of a post is the sum over its live roots of one
      plus their replies, plus what happened under its deleted roots since. */
  lemma {:induction false} CommentsCountFormula(ops: seq<Op>, post: Id)
    requires Legal(ops)
    ensures Counted(After(ops), post)
    decreases |ops|
  {
    if ops != [] {
      TreeAlways(ops[..|ops| - 1]);
      CommentsCountFormula(ops[..|ops| - 1], post);
      CountedStep(After(ops[..|ops| - 1]), ops[|ops| - 1], post);
    }
  }

  // ---------------------------------------------------------------- what readers can see

  /** A comment is shown when it is live and, if it is a reply, its root is live too. */
  ghost function Visible(s: State, post: Id): set<Id> {
    set i | i in s.comments && s.comments[i].post == post && !s.comments[i].deleted &&
      (s.comments[i].parent.Some? ==> Live(s, s.comments[i].parent.value))
  }

  /** Roots together with their live replies. */
  ghost function Under(c: Table, roots: set<Id>): set<Id> {
    roots + set i | i in c && !c[i].deleted && c[i].parent.Some? && c[i].parent.value in roots
  }

  lemma UnderSplits(c: Table, roots: set<Id>, r: Id)
    requires r in roots && forall q :: q in roots ==> q in c && c[q].parent.None?
    ensures Under(c, roots) == Under(c, roots - {r}) + ({r} + LiveReplies(c, r))
    ensures Under(c, roots - {r}) !! ({r} + LiveReplies(c, r))
  {
    forall i | i in Under(c, roots - {r}) ensures i !in {r} + LiveReplies(c, r) {
    }
  }

  lemma UnderTakesOut(c: Table, roots: set<Id>, r: Id)
    requires r in roots && forall q :: q in roots ==> q in c && c[q].parent.None?
    ensures |Under(c, roots)| == |Under(c, roots - {r})| + 1 + |LiveReplies(c, r)|
  {
    UnderSplits(c, roots, r);
    var rest, replies := Under(c, roots - {r}), LiveReplies(c, r);
    assert r !in replies;
    assert |{r} + replies| == 1 + |replies|;
    assert |rest + ({r} + replies)| == |rest| + |{r} + replies|;
  }

  lemma {:induction false} UnderIsSummed(c: Table, weights: map<Id, int>)
    requires forall r :: r in weights ==> r in c && c[r].parent.None? && weights[r] == 1 + |LiveReplies(c, r)|
    ensures |Under(c, weights.Keys)| == Sum(weights)
    decreases |weights|
  {
    if weights == map[] {
      assert Under(c, {}) == {};
    } else {
      var r :| r in weights;
      Smaller(weights, r);
      SumTakesOut(weights, r);
      UnderIsSummed(c, weights - {r});
      assert (weights - {r}).Keys == weights.Keys - {r};
      UnderTakesOut(c, weights.Keys, r);
    }
  }

  lemma VisibleIsSummed(s: State, post: Id)
    requires Tree(s)
    ensures |Visible(s, post)| == Sum(LiveRoots(s.comments, post))
  {
    var live := LiveRoots(s.comments, post);
    UnderIsSummed(s.comments, live);
    assert forall i :: i in s.comments ==> RowOk(s.comments, i);
    assert Visible(s, post) == Under(s.comments, live.Keys);
  }

  /** The counter shows what readers see exactly when the second sum is zero. */
  lemma CountIsVisibleUnlessDrifted(ops: seq<Op>, post: Id)
    requires Legal(ops) && post in After(ops).posts
    ensures var s := After(ops);
      && s.posts[post].comments == |Visible(s, post)| + Drift(s, post)
      && (s.posts[post].comments == |Visible(s, post)| <==> Drift(s, post) == 0)
  {
    TreeAlways(ops);
    CommentsCountFormula(ops, post);
    VisibleIsSummed(After(ops), post);
  }

  /** The operation adds or deletes a reply whose root is already deleted. */
  predicate TouchesDeadThread(s: State, op: Op, post: Id) {
    match op
    case Create(_, _, p, parent) =>
      var actual := ActualParent(s, parent);
      p == post && CreateOutcome(s, p, parent) == Done && actual.Some? && !Live(s, actual.value)
    case Delete(id, user) =>
      DeleteOutcome(s, id, user) == Done && s.comments[id].post == post &&
      s.comments[id].parent.Some? && !Live(s, s.comments[id].parent.value)
    case _ => false
  }

  /** Those operations, and no others, change the difference between counter and view. */
  lemma DriftStep(s: State, op: Op, post: Id)
    requires Tree(s) && Enabled(s, op)
    ensures Drift(Apply(s, op), post) == Drift(s, post) <==> !TouchesDeadThread(s, op, post)
  {
    match op
    case Create(id, user, p, parent) =>
      if CreateOutcome(s, p, parent) == Done { CreateMoves(s, id, user, p, parent, post); }
    case Delete(id, user) =>
      if DeleteOutcome(s, id, user) == Done { DeleteMoves(s, id, user, post); }
    case NewPost(_) =>
    case DropPost(_) =>
  }

  /** How many replies were created under roots of the post that were deleted already ... */
  ghost function CreatedUnderDeleted(ops: seq<Op>, post: Id): nat
    requires Legal(ops)
    decreases |ops|
  {
    if ops == [] then 0
    else
      var before, op := ops[..|ops| - 1], ops[|ops| - 1];
      CreatedUnderDeleted(before, post) + if op.Create? && TouchesDeadThread(After(before), op, post) then 1 else 0
  }

  /** ... and how many were deleted there. */
  ghost function DeletedUnderDeleted(ops: seq<Op>, post: Id): nat
    requires Legal(ops)
    decreases |ops|
  {
    if ops == [] then 0
    else
      var before, op := ops[..|ops| - 1], ops[|ops| - 1];
      DeletedUnderDeleted(before, post) + if op.Delete? && TouchesDeadThread(After(before), op, post) then 1 else 0
  }

  lemma DriftMoves(s: State, op: Op, post: Id)
    requires Tree(s) && Enabled(s, op)
    ensures Drift(Apply(s, op), post) == Drift(s, post)
      + if !TouchesDeadThread(s, op, post) then 0 else if op.Create? then 1 else -1
  {
    match op
    case Create(id, user, p, parent) =>
      if CreateOutcome(s, p, parent) == Done { CreateMoves(s, id, user, p, parent, post); }
    case Delete(id, user) =>
      if DeleteOutcome(s, id, user) == Done { DeleteMoves(s, id, user, post); }
    case NewPost(_) =>
    case DropPost(_) =>
  }

  lemma {:induction false} DriftIsTheDifference(ops: seq<Op>, post: Id)
    requires Legal(ops)
    ensures Drift(After(ops), post) == CreatedUnderDeleted(ops, post) - DeletedUnderDeleted(ops, post)
    decreases |ops|
  {
    if ops != [] {
      var before := ops[..|ops| - 1];
      TreeAlways(before);
      DriftIsTheDifference(before, post);
      DriftMoves(After(before), ops[|ops| - 1], post);
    } else {
      assert DeadRoots(map[], map[], post) == map[];
    }
  }

  /** The counter is off by the replies created under roots deleted already less those
      deleted there; it shows what readers see exactly when these were equally many. */
  lemma CountIsVisibleExactlyWhen(ops: seq<Op>, post: Id)
    requires Legal(ops) && post in After(ops).posts
    ensures var s, created, deleted := After(ops), CreatedUnderDeleted(ops, post), DeletedUnderDeleted(ops, post);
      && s.posts[post].comments == |Visible(s, post)| + created - deleted
      && (s.posts[post].comments == |Visible(s, post)| <==> created == deleted)
  {
    CountIsVisibleUnlessDrifted(ops, post);
    DriftIsTheDifference(ops, post);
  }

  ghost predicate NeverTouchesDeadThreads(ops: seq<Op>, post: Id)
    requires Legal(ops)
    decreases |ops|
  {
    ops == [] ||
    (NeverTouchesDeadThreads(ops[..|ops| - 1], post) &&
     !TouchesDeadThread(After(ops[..|ops| - 1]), ops[|ops| - 1], post))
  }

  lemma {:induction false} QuietThreadsDoNotDrift(ops: seq<Op>, post: Id)
    requires Legal(ops) && NeverTouchesDeadThreads(ops, post)
    ensures Drift(After(ops), post) == 0
    decreases |ops|
  {
    if ops != [] {
      TreeAlways(ops[..|ops| - 1]);
      QuietThreadsDoNotDrift(ops[..|ops| - 1], post);
      DriftStep(After(ops[..|ops| - 1]), ops[|ops| - 1], post);
    } else {
      assert DeadRoots(map[], map[], post) == map[];
    }
  }

  lemma CountIsVisible(ops: seq<Op>, post: Id)
    requires Legal(ops) && post in After(ops).posts && NeverTouchesDeadThreads(ops, post)
    ensures After(ops).posts[post].comments == |Visible(After(ops), post)|
  {
    QuietThreadsDoNotDrift(ops, post);
    CountIsVisibleUnlessDrifted(ops, post);
  }

  lemma Advance(ops: seq<Op>, op: Op) returns (r: seq<Op>)
    requires Legal(ops) && Enabled(After(ops), op)
    ensures Legal(r) && After(r) == Apply(After(ops), op)
  {
    r := ops + [op];
    assert r[..|r| - 1] == ops;
  }

  /** A root with one reply. */
  function Pair(post: Id, root: Id, reply: Id, user: User, rootGone: bool): Table {
    map[root := Comment(user, post, None, 1, rootGone), reply := Comment(user, post, Some(root), 0, false)]
  }

  lemma PairSteps(post: Id, root: Id, reply: Id, user: User)
    requires root != reply
    ensures var s0 := State(map[], map[post := Post(0, false)], map[]);
      Created(Created(s0, root, user, post, None), reply, user, post, Some(root))
        == State(Pair(post, root, reply, user, false), map[post := Post(2, false)], map[])
  {
    var s0 := State(map[], map[post := Post(0, false)], map[]);
    var s1 := Created(s0, root, user, post, None);
    assert s1 == State(map[root := Comment(user, post, None, 0, false)], map[post := Post(1, false)], map[]);
    var s2 := Created(s1, reply, user, post, Some(root));
    assert s2.comments == Pair(post, root, reply, user, false);
    assert s2.posts == map[post := Post(2, false)];
  }

  lemma UnpairSteps(post: Id, root: Id, reply: Id, user: User)
    requires root != reply
    ensures var s := State(Pair(post, root, reply, user, false), map[post := Post(2, false)], map[]);
      var t := Deleted(Deleted(s, root, user), reply, user);
      post in t.posts && t.posts[post].comments == -1
  {
    var s := State(Pair(post, root, reply, user, false), map[post := Post(2, false)], map[]);
    var t := Deleted(s, root, user);
    assert t.comments == Pair(post, root, reply, user, true);
    assert t.posts == map[post := Post(0, false)];
  }

  /** The drift is real: delete a root, then its reply, and the counter is below zero. */
  lemma CounterCanGoNegative(post: Id, root: Id, reply: Id, user: User) returns (ops: seq<Op>)
    requires root != reply
    ensures Legal(ops) && post in After(ops).posts && After(ops).posts[post].comments == -1
  {
    PairSteps(post, root, reply, user);
    UnpairSteps(post, root, reply, user);
    ops := Advance([], NewPost(post));
    ops := Advance(ops, Create(root, user, post, None));
    ops := Advance(ops, Create(reply, user, post, Some(root)));
    ops := Advance(ops, Delete(root, user));
    ops := Advance(ops, Delete(reply, user));
  }

  // ---------------------------------------------------------------- the rows afterwards

  lemma CreatedRows(s: State, id: Id, user: User, post: Id, parent: Option<Id>)
    requires id !in s.comments && CreateOutcome(s, post, parent) == Done
    ensures var t, p := Created(s, id, user, post, parent), ActualParent(s, parent);
      && t.comments.Keys == s.comments.Keys + {id} && t.posts.Keys == s.posts.Keys
      && t.comments[id].(replies := 0) == Comment(user, post, p, 0, false)
      && (p != Some(id) ==> t.comments[id].replies == 0)
      && (forall i | i in s.comments ::
           t.comments[i] == s.comments[i].(replies := s.comments[i].replies + if p == Some(i) then 1 else 0))
      && (forall q | q in s.posts ::
           t.posts[q] == s.posts[q].(comments := s.posts[q].comments + if q == post then 1 else 0))
  {
  }

  lemma DeletedRows(s: State, id: Id, user: User)
    requires DeleteOutcome(s, id, user) == Done
    ensures var t, c := Deleted(s, id, user), s.comments[id];
      && t.comments.Keys == s.comments.Keys && t.posts.Keys == s.posts.Keys
      && (forall i | i in s.comments ::
           t.comments[i] == s.comments[i].(deleted := s.comments[i].deleted || i == id,
             replies := s.comments[i].replies - if c.parent == Some(i) then 1 else 0))
      && (forall q | q in s.posts ::
           t.posts[q] == s.posts[q].(comments := s.posts[q].comments -
             if q != c.post then 0 else if c.replies > 0 then 1 + c.replies else 1))
  {
  }

  // ---------------------------------------------------------------- the service

  class CommentsService {
    var comments: map<Id, Comment>
    var posts: map<Id, Post>
    ghost var atDeletion: map<Id, int>

    ghost function Now(): State
      reads this
    {
      State(comments, posts, atDeletion)
    }

    constructor ()
      ensures Now() == INIT
    {
      comments, posts := map[], map[];
      atDeletion := map[];
    }

    method AddReplies(id: Id, n: int)
      modifies `comments
      ensures Now() == WithReplies(old(Now()), Some(id), n)
    {
      if id in comments {
        comments := comments[id := comments[id].(replies := comments[id].replies + n)];
      }
    }

    method AddComments(post: Id, n: int)
      modifies `posts
      ensures Now() == WithComments(old(Now()), post, n)
    {
      if post in posts {
        posts := posts[post := posts[post].(comments := posts[post].comments + n)];
      }
    }

    /** `id` is the identifier the database hands out. */
    method Create(id: Id, user: User, post: Id, parent: Option<Id>) returns (outcome: Outcome)
      requires id !in comments
      modifies this
      ensures Now() == Created(old(Now()), id, user, post, parent)
      ensures outcome == PostNotFound <==> post !in old(posts) || old(posts)[post].deleted
      ensures outcome == ParentNotFound ==> parent.Some?
      ensures outcome == ParentNotFound && parent.value in old(comments) ==>
        old(comments)[parent.value].deleted || old(comments)[parent.value].post != post
      ensures outcome == Done && parent.Some? ==>
        parent.value in old(comments) && !old(comments)[parent.value].deleted && old(comments)[parent.value].post == post
      ensures outcome == PostNotFound || outcome == ParentNotFound || outcome == Done
      ensures outcome != Done ==> comments == old(comments) && posts == old(posts)
      ensures outcome == Done ==> comments.Keys == old(comments.Keys) + {id} && posts.Keys == old(posts.Keys)
      ensures outcome == Done ==> comments[id].user == user && comments[id].post == post && !comments[id].deleted
      ensures outcome == Done ==> (comments[id].parent.None? <==> parent.None?)
      ensures outcome == Done && parent.Some? && old(comments)[parent.value].parent.None? ==>
        comments[id].parent == parent
      ensures outcome == Done && parent.Some? && old(comments)[parent.value].parent.Some? ==>
        comments[id].parent == old(comments)[parent.value].parent
      ensures outcome == Done && comments[id].parent != Some(id) ==> comments[id].replies == 0
      ensures outcome == Done ==> forall i | i in old(comments) ::
        comments[i] == old(comments)[i].(replies := old(comments)[i].replies + if comments[id].parent == Some(i) then 1 else 0)
      ensures outcome == Done ==> forall p | p in old(posts) ::
        posts[p] == old(posts)[p].(comments := old(posts)[p].comments + if p == post then 1 else 0)
    {
      if post !in posts || posts[post].deleted {
        return PostNotFound;
      }
      var actualParent := parent;
      if parent.Some? {
        if parent.value !in comments || comments[parent.value].deleted || comments[parent.value].post != post {
          return ParentNotFound;
        }
        if comments[parent.value].parent.Some? {
          actualParent := comments[parent.value].parent;
        }
      }
      comments := comments[id := Comment(user, post, actualParent, 0, false)];
      if actualParent.Some? {
        AddReplies(actualParent.value, 1);
      }
      AddComments(post, 1);
      CreatedRows(old(Now()), id, user, post, parent);
      outcome := Done;
    }

    method Delete(id: Id, user: User) returns (outcome: Outcome)
      modifies this
      ensures Now() == Deleted(old(Now()), id, user)
      ensures outcome == CommentNotFound <==> id !in old(comments) || old(comments)[id].deleted
      ensures outcome == Forbidden <==> outcome != CommentNotFound && old(comments)[id].user != user
      ensures outcome == CommentNotFound || outcome == Forbidden || outcome == Done
      ensures outcome != Done ==> comments == old(comments) && posts == old(posts)
      ensures comments.Keys == old(comments.Keys) && posts.Keys == old(posts.Keys)
      ensures outcome == Done ==> forall i | i in old(comments) ::
        comments[i] == old(comments)[i].(deleted := old(comments)[i].deleted || i == id,
          replies := old(comments)[i].replies - if old(comments)[id].parent == Some(i) then 1 else 0)
      ensures outcome == Done ==> forall p | p in old(posts) ::
        posts[p] == old(posts)[p].(comments := old(posts)[p].comments -
          if p != old(comments)[id].post then 0
          else if old(comments)[id].replies > 0 then 1 + old(comments)[id].replies else 1)
    {
      if id !in comments || comments[id].deleted {
        return CommentNotFound;
      }
      ghost var s := Now();
      var comment := comments[id];
      if comment.user != user {
        return Forbidden;
      }
      comments := comments[id := comment.(deleted := true)];
      atDeletion := atDeletion[id := comment.replies];
      ghost var marked := Now();
      if comment.parent.Some? {
        AddReplies(comment.parent.value, -1);
      }
      assert Now() == WithReplies(marked, comment.parent, -1);
      AddComments(comment.post, -1);
      if comment.replies > 0 {
        AddComments(comment.post, -comment.replies);
      }
      outcome := Done;
      assert Now() == Deleted(s, id, user);
      DeletedRows(s, id, user);
    }
  }
}
