/** Posts and their hashtag index (posts.service.ts), one handler at a time. */
module HashtagIndex {
  import opened HashtagText
  import opened Options

  type Id = string
  type User = string

  datatype Visibility = Public | Followers | Private

  datatype Post = Post(user: User, content: string, visibility: Visibility, deleted: bool)

  datatype Hashtag = Hashtag(name: string, postsCount: int)

  /** The rows of `hashtags` in the order they were inserted, their position standing for
      their id, and the pairs of `post_hashtags`. */
  datatype Index = Index(tags: seq<Hashtag>, links: set<(Id, nat)>)

  /** `indexed` remembers the text each post was last indexed with. */
  datatype State = State(posts: map<Id, Post>, index: Index, indexed: map<Id, string>)

  const INIT := State(map[], Index([], {}), map[])

  // ---------------------------------------------------------------- the index

  /** `findOne({ name })`: the position of the row, or the number of rows. */
  function FindTag(tags: seq<Hashtag>, name: string): (i: nat)
    ensures i <= |tags|
    ensures i < |tags| ==> tags[i].name == name
    ensures i == |tags| ==> forall k :: 0 <= k < |tags| ==> tags[k].name != name
  {
    if tags == [] then 0
    else
      var i := FindTag(tags[..|tags| - 1], name);
      if i < |tags| - 1 then i
      else if tags[|tags| - 1].name == name then |tags| - 1
      else |tags|
  }

  /** One round of the loop: find or create the row, link it, count it. */
  function WithTag(x: Index, p: Id, name: string): Index {
    var i := FindTag(x.tags, name);
    var rows := if i < |x.tags| then x.tags else x.tags + [Hashtag(name, 0)];
    Index(rows[i := Hashtag(name, rows[i].postsCount + 1)], x.links + {(p, i)})
  }

  function WithTags(x: Index, p: Id, names: seq<string>): Index {
    if names == [] then x else WithTag(WithTags(x, p, names[..|names| - 1]), p, names[|names| - 1])
  }

  lemma OneRound(tags: seq<Hashtag>, links: set<(Id, nat)>, p: Id, name: string, i: nat, rows: seq<Hashtag>)
    requires i == FindTag(tags, name) && rows == if i == |tags| then tags + [Hashtag(name, 0)] else tags
    ensures WithTag(Index(tags, links), p, name)
         == Index(rows[i := rows[i].(postsCount := rows[i].postsCount + 1)], links + {(p, i)})
  {
  }

  lemma WithTagsGrow(x: Index, p: Id, names: seq<string>, k: nat)
    requires k < |names|
    ensures WithTags(x, p, names[..k + 1]) == WithTag(WithTags(x, p, names[..k]), p, names[k])
  {
    assert names[..k + 1][..k] == names[..k];
  }

  /** Every link of `p` is counted down once, then all of them go. */
  function WithoutPost(x: Index, p: Id): Index {
    Index(
      seq(|x.tags|, i requires 0 <= i < |x.tags| =>
        if (p, i) in x.links then x.tags[i].(postsCount := x.tags[i].postsCount - 1) else x.tags[i]),
      set l | l in x.links && l.0 != p)
  }

  ghost function PostsOf(x: Index, i: nat): set<Id> {
    set l | l in x.links && l.1 == i :: l.0
  }

  predicate Tagged(x: Index, p: Id, name: string) {
    exists i :: 0 <= i < |x.tags| && (p, i) in x.links && x.tags[i].name == name
  }

  ghost predicate IndexOk(x: Index) {
    && (forall i, j :: 0 <= i < j < |x.tags| ==> x.tags[i].name != x.tags[j].name)
    && (forall l :: l in x.links ==> l.1 < |x.tags|)
    && (forall i :: 0 <= i < |x.tags| ==> x.tags[i].postsCount == |PostsOf(x, i)|)
  }

  lemma WithTagCounts(x: Index, p: Id, name: string)
    requires IndexOk(x) && !Tagged(x, p, name)
    ensures IndexOk(WithTag(x, p, name))
  {
    var i, y := FindTag(x.tags, name), WithTag(x, p, name);
    assert p in PostsOf(x, i) <==> (p, i) in x.links;
    assert PostsOf(y, i) == PostsOf(x, i) + {p};
    assert i == |x.tags| ==> PostsOf(x, i) == {};
    forall k | 0 <= k < |y.tags| && k != i ensures y.tags[k].postsCount == |PostsOf(y, k)| {
      assert PostsOf(y, k) == PostsOf(x, k);
    }
  }

  lemma WithTagTags(x: Index, p: Id, name: string, q: Id, n: string)
    requires IndexOk(x)
    ensures Tagged(WithTag(x, p, name), q, n) <==> Tagged(x, q, n) || (q == p && n == name)
  {
    var i, y := FindTag(x.tags, name), WithTag(x, p, name);
    if Tagged(x, q, n) {
      var k :| 0 <= k < |x.tags| && (q, k) in x.links && x.tags[k].name == n;
      assert (q, k) in y.links && y.tags[k].name == n;
    }
    if q == p && n == name {
      assert (p, i) in y.links && y.tags[i].name == name;
    }
  }

  lemma WithTagKeepsIndex(x: Index, p: Id, name: string)
    requires IndexOk(x) && !Tagged(x, p, name)
    ensures IndexOk(WithTag(x, p, name))
    ensures forall q, n :: Tagged(WithTag(x, p, name), q, n) <==> Tagged(x, q, n) || (q == p && n == name)
  {
    WithTagCounts(x, p, name);
    forall q, n ensures Tagged(WithTag(x, p, name), q, n) <==> Tagged(x, q, n) || (q == p && n == name) {
      WithTagTags(x, p, name, q, n);
    }
  }

  lemma {:induction false} WithTagsKeepsIndex(x: Index, p: Id, names: seq<string>)
    requires IndexOk(x) && forall n :: n in names ==> !Tagged(x, p, n)
    requires forall i, j :: 0 <= i < j < |names| ==> names[i] != names[j]
    ensures IndexOk(WithTags(x, p, names))
    ensures forall q, n :: Tagged(WithTags(x, p, names), q, n) <==> Tagged(x, q, n) || (q == p && n in names)
    decreases |names|
  {
    if names != [] {
      var front, last := names[..|names| - 1], names[|names| - 1];
      WithTagsKeepsIndex(x, p, front);
      WithTagKeepsIndex(WithTags(x, p, front), p, last);
      assert names == front + [last];
    }
  }

  lemma WithoutPostKeepsIndex(x: Index, p: Id)
    requires IndexOk(x)
    ensures IndexOk(WithoutPost(x, p))
    ensures forall q, n :: Tagged(WithoutPost(x, p), q, n) <==> Tagged(x, q, n) && q != p
  {
    var y := WithoutPost(x, p);
    forall i | 0 <= i < |x.tags| ensures y.tags[i].postsCount == |PostsOf(y, i)| {
      assert PostsOf(y, i) == PostsOf(x, i) - {p} by {
        forall q ensures q in PostsOf(y, i) <==> q in PostsOf(x, i) && q != p {
          assert q in PostsOf(x, i) <==> (q, i) in x.links;
          assert q in PostsOf(y, i) <==> (q, i) in y.links;
        }
      }
      assert p in PostsOf(x, i) <==> (p, i) in x.links;
    }
    forall q, n ensures Tagged(y, q, n) <==> Tagged(x, q, n) && q != p {
      if Tagged(x, q, n) && q != p {
        var i :| 0 <= i < |x.tags| && (q, i) in x.links && x.tags[i].name == n;
        assert (q, i) in y.links && y.tags[i].name == n;
      }
    }
  }

  // ---------------------------------------------------------------- what the handlers do

  datatype Outcome = Done | NotFound | Forbidden

  /** `findOne(id, currentUser)`: without a current user a private post is refused to
      everybody, its author included. */
  function Access(s: State, id: Id, current: Option<User>, follows: bool): Outcome {
    if id !in s.posts || s.posts[id].deleted then NotFound
    else if s.posts[id].visibility == Private && current != Some(s.posts[id].user) then Forbidden
    else if s.posts[id].visibility == Followers && current.Some? && !follows && current.value != s.posts[id].user then Forbidden
    else Done
  }

  /** The check `update` and `delete` begin with. */
  function OwnerAccess(s: State, id: Id, user: User): Outcome {
    var access := Access(s, id, None, false);
    if access != Done then access else if s.posts[id].user != user then Forbidden else Done
  }

  datatype Op =
    | Create(id: Id, user: User, content: string, visibility: Visibility)
    | Update(id: Id, user: User, text: Option<string>, shown: Option<Visibility>)
    | Delete(id: Id, user: User)
    | Share(id: Id, user: User, original: Id, text: Option<string>, follows: bool)

  predicate Enabled(s: State, op: Op) {
    op.Create? || op.Share? ==> op.id !in s.posts
  }

  function Created(s: State, id: Id, user: User, content: string, visibility: Visibility): State {
    State(s.posts[id := Post(user, content, visibility, false)],
          WithTags(s.index, id, ExtractHashtags(content)),
          s.indexed[id := content])
  }

  /** Only a non-empty text is indexed; any text that is given is stored. */
  function Updated(s: State, id: Id, user: User, text: Option<string>, shown: Option<Visibility>): State {
    if OwnerAccess(s, id, user) != Done then s
    else
      var reindex := text.Some? && text.value != "";
      var p := s.posts[id];
      State(s.posts[id := p.(content := if text.Some? then text.value else p.content,
                             visibility := if shown.Some? then shown.value else p.visibility)],
            if reindex then WithTags(WithoutPost(s.index, id), id, ExtractHashtags(text.value)) else s.index,
            if reindex then s.indexed[id := text.value] else s.indexed)
  }

  function Deleted(s: State, id: Id, user: User): State {
    if OwnerAccess(s, id, user) != Done then s
    else State(s.posts[id := s.posts[id].(deleted := true)], WithoutPost(s.index, id), s.indexed[id := ""])
  }

  /** A repost is public, its text is optional, and it is not indexed. */
  function Shared(s: State, id: Id, user: User, original: Id, text: Option<string>, follows: bool): State {
    if Access(s, original, Some(user), follows) != Done then s
    else State(s.posts[id := Post(user, if text.Some? then text.value else "", Public, false)], s.index, s.indexed[id := ""])
  }

  function Apply(s: State, op: Op): State {
    match op
    case Create(id, user, content, visibility) => Created(s, id, user, content, visibility)
    case Update(id, user, text, shown) => Updated(s, id, user, text, shown)
    case Delete(id, user) => Deleted(s, id, user)
    case Share(id, user, original, text, follows) => Shared(s, id, user, original, text, follows)
  }

  ghost predicate Legal(ops: seq<Op>)
    decreases |ops|, 0
  {
    ops == [] || (Legal(ops[..|ops| - 1]) && Enabled(After(ops[..|ops| - 1]), ops[|ops| - 1]))
  }

  ghost function After(ops: seq<Op>): State
    requires Legal(ops)
    decreases |ops|, 1
  {
    if ops == [] then INIT else Apply(After(ops[..|ops| - 1]), ops[|ops| - 1])
  }

  // ---------------------------------------------------------------- index against text

  ghost predicate Inv(s: State) {
    && IndexOk(s.index)
    && s.indexed.Keys == s.posts.Keys
    && (forall p, n :: Tagged(s.index, p, n) <==> p in s.indexed && n in ExtractHashtags(s.indexed[p]))
  }

  lemma NothingInNothing()
    ensures ExtractHashtags("") == []
  {
    assert Matches("") == [];
    assert Lowered([]) == [];
  }

  lemma InvCreate(s: State, id: Id, user: User, content: string, visibility: Visibility)
    requires Inv(s) && id !in s.posts
    ensures Inv(Created(s, id, user, content, visibility))
  {
    WithTagsKeepsIndex(s.index, id, ExtractHashtags(content));
  }

  lemma InvReindex(s: State, t: State, id: Id, text: string)
    requires Inv(s) && id in s.posts && t.posts.Keys == s.posts.Keys
    requires t.index == WithTags(WithoutPost(s.index, id), id, ExtractHashtags(text)) && t.indexed == s.indexed[id := text]
    ensures Inv(t)
  {
    WithoutPostKeepsIndex(s.index, id);
    WithTagsKeepsIndex(WithoutPost(s.index, id), id, ExtractHashtags(text));
  }

  lemma InvDelete(s: State, id: Id, user: User)
    requires Inv(s)
    ensures Inv(Deleted(s, id, user))
  {
    if OwnerAccess(s, id, user) == Done {
      WithoutPostKeepsIndex(s.index, id);
      NothingInNothing();
    }
  }

  lemma InvStep(s: State, op: Op)
    requires Inv(s) && Enabled(s, op)
    ensures Inv(Apply(s, op))
  {
    match op
    case Create(id, user, content, visibility) => InvCreate(s, id, user, content, visibility);
    case Update(id, user, text, _) =>
      if OwnerAccess(s, id, user) == Done && text.Some? && text.value != "" {
        InvReindex(s, Apply(s, op), id, text.value);
      }
    case Delete(id, user) => InvDelete(s, id, user);
    case Share(_, _, _, _, _) => NothingInNothing();
  }

  lemma {:induction false} InvRun(ops: seq<Op>)
    requires Legal(ops)
    ensures Inv(After(ops))
    decreases |ops|
  {
    if ops != [] {
      InvRun(ops[..|ops| - 1]);
      InvStep(After(ops[..|ops| - 1]), ops[|ops| - 1]);
    } else {
      forall p, n ensures !Tagged(INIT.index, p, n) { }
    }
  }

  /** In every run each hashtag row counts the posts linked to it, no name has two rows,
      and a deleted post has no link left. */
  lemma CountsAreExact(ops: seq<Op>, i: nat)
    requires Legal(ops) && i < |After(ops).index.tags|
    ensures var s := After(ops);
      && s.index.tags[i].postsCount == |PostsOf(s.index, i)|
      && (forall j :: 0 <= j < |s.index.tags| && s.index.tags[j].name == s.index.tags[i].name ==> j == i)
      && (forall p :: p in PostsOf(s.index, i) ==> p in s.posts && !s.posts[p].deleted)
  {
    InvRun(ops);
    DeletedUnindexed(ops);
    var s := After(ops);
    forall p | p in PostsOf(s.index, i) ensures p in s.posts && !s.posts[p].deleted {
      assert Tagged(s.index, p, s.index.tags[i].name);
      NothingInNothing();
    }
  }

  ghost predicate DeletedHaveNoText(s: State) {
    forall p :: p in s.posts && s.posts[p].deleted ==> p in s.indexed && s.indexed[p] == ""
  }

  lemma DeletedUnindexedStep(s: State, op: Op)
    requires DeletedHaveNoText(s) && Enabled(s, op)
    ensures DeletedHaveNoText(Apply(s, op))
  {
    match op
    case Create(_, _, _, _) =>
    case Update(id, user, _, _) => assert OwnerAccess(s, id, user) == Done ==> !s.posts[id].deleted;
    case Delete(_, _) =>
    case Share(_, _, _, _, _) =>
  }

  lemma {:induction false} DeletedUnindexed(ops: seq<Op>)
    requires Legal(ops)
    ensures DeletedHaveNoText(After(ops))
    decreases |ops|
  {
    if ops != [] {
      DeletedUnindexed(ops[..|ops| - 1]);
      DeletedUnindexedStep(After(ops[..|ops| - 1]), ops[|ops| - 1]);
    }
  }

  /** `tag.toLowerCase().replace(/^#/, '')`, the lower-casing already done. */
  function Normalise(lowered: string): string {
    if lowered != [] && lowered[0] == '#' then lowered[1..] else lowered
  }

  /** `getByHashtag`: find the row, then join through the links. */
  ghost function Lookup(s: State, tag: string, blocked: set<User>): set<Id> {
    var i := FindTag(s.index.tags, Normalise(tag));
    if i == |s.index.tags| then {}
    else set p | p in s.posts && (p, i) in s.index.links && s.posts[p].visibility == Public
              && !s.posts[p].deleted && s.posts[p].user !in blocked
  }

  /** One leading hash sign of the asked-for tag does not matter, and nothing else is cut. */
  lemma LeadingHashDoesNotMatter(s: State, tag: string, blocked: set<User>)
    requires tag == [] || tag[0] != '#'
    ensures Normalise(tag) == tag
    ensures Lookup(s, "#" + tag, blocked) == Lookup(s, tag, blocked)
  {
    assert ("#" + tag)[1..] == tag;
  }

  /** What last wrote the text of a post. */
  datatype Writer = Nobody | IndexedText | SharedText | EmptyText(before: string)

  /** `create`, and `update` with a text, index what they write; `share` does not; `update`
      with the empty text stores it and leaves the tags of the text indexed last. */
  ghost function WrittenBy(ops: seq<Op>, p: Id): Writer
    requires Legal(ops)
    decreases |ops|
  {
    if ops == [] then Nobody
    else
      var before, op := ops[..|ops| - 1], ops[|ops| - 1];
      if op.id != p then WrittenBy(before, p)
      else match op
        case Create(_, _, _, _) => IndexedText
        case Share(_, user, original, _, follows) =>
          if Access(After(before), original, Some(user), follows) == Done then SharedText else WrittenBy(before, p)
        case Update(_, user, text, _) =>
          if OwnerAccess(After(before), p, user) != Done || text.None? then WrittenBy(before, p)
          else if text.value != "" then IndexedText
          else (match WrittenBy(before, p)
                case IndexedText => EmptyText(After(before).posts[p].content)
                case SharedText => EmptyText("")
                case other => other)
        case Delete(_, _) => WrittenBy(before, p)
  }

  /** How the text the index knows follows from the writer. */
  ghost predicate Remembered(s: State, p: Id, w: Writer) {
    match w
    case Nobody => p !in s.posts
    case IndexedText => p in s.posts && p in s.indexed && (!s.posts[p].deleted ==> s.indexed[p] == s.posts[p].content)
    case SharedText => p in s.posts && p in s.indexed && s.indexed[p] == ""
    case EmptyText(before) =>
      p in s.posts && p in s.indexed && (!s.posts[p].deleted ==> s.indexed[p] == before && s.posts[p].content == "")
  }

  lemma {:induction false} WriterTellsTheIndexedText(ops: seq<Op>, p: Id)
    requires Legal(ops)
    ensures Remembered(After(ops), p, WrittenBy(ops, p))
    decreases |ops|
  {
    if ops != [] {
      WriterTellsTheIndexedText(ops[..|ops| - 1], p);
    }
  }

  /** The lookup disagrees with a scan of the post's text in these cases and in no other:
      a shared text has the tag, or an emptied post had it in the text indexed last. */
  predicate Missed(w: Writer, content: string, tag: string) {
    match w
    case SharedText => tag in ExtractHashtags(content)
    case EmptyText(before) => tag in ExtractHashtags(before)
    case _ => false
  }

  /** For every run and every post the reader may be shown (public, live, not by a blocked
      author): the lookup by hashtag agrees with a scan of its text unless that text was
      written by a share and has the tag, or is empty and replaced one that had it. */
  lemma LookupAgreesExactlyWhen(ops: seq<Op>, tag: string, blocked: set<User>, p: Id)
    requires Legal(ops)
    requires var s := After(ops);
      p in s.posts && s.posts[p].visibility == Public && !s.posts[p].deleted && s.posts[p].user !in blocked
    ensures var s := After(ops);
      (p in Lookup(s, tag, blocked) <==> Normalise(tag) in ExtractHashtags(s.posts[p].content))
        <==> !Missed(WrittenBy(ops, p), s.posts[p].content, Normalise(tag))
  {
    InvRun(ops);
    WriterTellsTheIndexedText(ops, p);
    NothingInNothing();
    LookupIsTagged(After(ops), tag, blocked, p);
  }

  /** No post whose text was last written by a share is found by any hashtag. */
  lemma SharedIsInNoLookup(ops: seq<Op>, tag: string, blocked: set<User>, p: Id)
    requires Legal(ops) && WrittenBy(ops, p).SharedText?
    ensures p !in Lookup(After(ops), tag, blocked)
  {
    InvRun(ops);
    WriterTellsTheIndexedText(ops, p);
    NothingInNothing();
    LookupIsTagged(After(ops), tag, blocked, p);
  }

  lemma LookupIsTagged(s: State, tag: string, blocked: set<User>, p: Id)
    requires IndexOk(s.index) && p in s.posts
    ensures p in Lookup(s, tag, blocked) <==>
      Tagged(s.index, p, Normalise(tag)) && s.posts[p].visibility == Public && !s.posts[p].deleted && s.posts[p].user !in blocked
  {
    var name := Normalise(tag);
    var i := FindTag(s.index.tags, name);
    if Tagged(s.index, p, name) {
      var k :| 0 <= k < |s.index.tags| && (p, k) in s.index.links && s.index.tags[k].name == name;
      assert k == i;
    }
  }

  /** Over all runs, the lookup returns exactly what a naive search would, the public, live
      posts of authors not blocked whose text contains the tag, if that text was indexed. */
  lemma LookupIsNaiveSearch(ops: seq<Op>, tag: string, blocked: set<User>, p: Id)
    requires Legal(ops) && (WrittenBy(ops, p).IndexedText? || WrittenBy(ops, p).Nobody?)
    ensures var s := After(ops);
      p in Lookup(s, tag, blocked) <==>
        p in s.posts && s.posts[p].visibility == Public && !s.posts[p].deleted && s.posts[p].user !in blocked &&
        Normalise(tag) in ExtractHashtags(s.posts[p].content)
  {
    InvRun(ops);
    WriterTellsTheIndexedText(ops, p);
    if p in After(ops).posts {
      LookupIsTagged(After(ops), tag, blocked, p);
    }
  }

  lemma Advance(ops: seq<Op>, op: Op) returns (r: seq<Op>)
    requires Legal(ops) && Enabled(After(ops), op)
    ensures r == ops + [op] && Legal(r) && After(r) == Apply(After(ops), op)
  {
    r := ops + [op];
    assert r[..|r| - 1] == ops;
  }

  /** A run for the first case: a hashtag in the text of a share is not found. */
  lemma SharedTextIsNotFound(original: Id, p: Id, user: User, text: string, tag: string) returns (ops: seq<Op>)
    requires original != p && tag in ExtractHashtags(text)
    ensures Legal(ops) && p in After(ops).posts && p !in Lookup(After(ops), tag, {})
    ensures After(ops).posts[p] == Post(user, text, Public, false)
  {
    ops := Advance([], Create(original, user, "", Public));
    var shared := Share(p, user, original, Some(text), false);
    var before := ops;
    ops := before + [shared];
    assert ops[..|ops| - 1] == before && WrittenBy(ops, p) == SharedText;
    SharedIsInNoLookup(ops, tag, {}, p);
  }

  /** A run for the second case, on the bare service method: the request validation refuses
      an empty text. The emptied post is still found by its old tags. */
  lemma EmptiedTextIsStillFound(p: Id, user: User, text: string, tag: string) returns (ops: seq<Op>)
    requires Normalise(tag) in ExtractHashtags(text)
    ensures Legal(ops) && p in Lookup(After(ops), tag, {})
    ensures p in After(ops).posts && After(ops).posts[p] == Post(user, "", Public, false)
    ensures ExtractHashtags(After(ops).posts[p].content) == []
  {
    ops := EmptiedPost(p, user, text);
    InvRun(ops);
    NothingInNothing();
    LookupIsTagged(After(ops), tag, {}, p);
  }

  lemma EmptiedPost(p: Id, user: User, text: string) returns (ops: seq<Op>)
    ensures Legal(ops) && p in After(ops).posts && p in After(ops).indexed
    ensures After(ops).posts[p] == Post(user, "", Public, false) && After(ops).indexed[p] == text
  {
    ops := Advance([], Create(p, user, text, Public));
    ops := Advance(ops, Update(p, user, Some(""), None));
  }

  // ---------------------------------------------------------------- the owner's access

  /** The owner of a post may edit and delete it exactly when it is there and not private. */
  lemma OwnerMayExactlyWhen(s: State, p: Id)
    requires p in s.posts
    ensures OwnerAccess(s, p, s.posts[p].user) == Done
      <==> !s.posts[p].deleted && s.posts[p].visibility != Private
  {
  }

  lemma PrivateStep(s: State, op: Op, p: Id)
    requires Enabled(s, op) && p in s.posts && s.posts[p].visibility == Private
    ensures p in Apply(s, op).posts && Apply(s, op).posts[p] == s.posts[p]
  {
  }

  /** Once private, a post stays as it is in every continuation of every run. */
  lemma {:induction false} PrivateIsFrozen(ops: seq<Op>, n: nat, p: Id)
    requires Legal(ops) && n <= |ops| && Legal(ops[..n])
    requires p in After(ops[..n]).posts && After(ops[..n]).posts[p].visibility == Private
    ensures p in After(ops).posts && After(ops).posts[p] == After(ops[..n]).posts[p]
    decreases |ops|
  {
    if n == |ops| {
      assert ops[..n] == ops;
    } else {
      var before := ops[..|ops| - 1];
      assert before[..n] == ops[..n];
      PrivateIsFrozen(before, n, p);
      PrivateStep(After(before), ops[|ops| - 1], p);
    }
  }

  /** A run: an author creates a private post, and neither the edit nor the deletion that
      follows changes it. */
  lemma OwnerCannotEditPrivate(p: Id, user: User, text: string, edited: string) returns (ops: seq<Op>)
    ensures Legal(ops) && |ops| == 3
    ensures ops[1] == Update(p, user, Some(edited), Some(Public)) && ops[2] == Delete(p, user)
    ensures p in After(ops).posts && After(ops).posts[p] == Post(user, text, Private, false)
  {
    ops := Advance([], Create(p, user, text, Private));
    ops := Advance(ops, Update(p, user, Some(edited), Some(Public)));
    ops := Advance(ops, Delete(p, user));
  }

  /** Who may read a post that is there: anybody a public one, only its author a private
      one, and a followers' one its author, a follower, and who is not logged in. */
  ghost predicate MayRead(p: Post, current: Option<User>, follows: bool) {
    match p.visibility
    case Public => true
    case Followers => current == None || current == Some(p.user) || follows
    case Private => current == Some(p.user)
  }

  // ---------------------------------------------------------------- the service

  class PostsService {
    var posts: map<Id, Post>
    var tags: seq<Hashtag>
    var links: set<(Id, nat)>
    ghost var indexed: map<Id, string>

    ghost function Now(): State
      reads this
    {
      State(posts, Index(tags, links), indexed)
    }

    constructor ()
      ensures Now() == INIT
    {
      posts, tags, links := map[], [], {};
      indexed := map[];
    }

    /** One round of the loop. */
    method LinkTag(id: Id, tag: string)
      modifies `tags, `links
      ensures Index(tags, links) == WithTag(old(Index(tags, links)), id, tag)
    {
      var hashtag := FindTag(tags, tag);
      ghost var tags0 := tags;
      if hashtag == |tags| {
        tags := tags + [Hashtag(tag, 0)];
      }
      OneRound(tags0, links, id, tag, hashtag, tags);
      links := links + {(id, hashtag)};
      tags := tags[hashtag := tags[hashtag].(postsCount := tags[hashtag].postsCount + 1)];
    }

    method ProcessHashtags(id: Id, content: string)
      modifies `tags, `links
      ensures Index(tags, links) == WithTags(old(Index(tags, links)), id, ExtractHashtags(content))
    {
      var hashtags := ExtractHashtags(content);
      for k := 0 to |hashtags|
        invariant Index(tags, links) == WithTags(old(Index(tags, links)), id, hashtags[..k])
      {
        WithTagsGrow(old(Index(tags, links)), id, hashtags, k);
        LinkTag(id, hashtags[k]);
      }
      assert hashtags[..|hashtags|] == hashtags;
    }

    method RemovePostHashtags(id: Id)
      requires forall l :: l in links ==> l.1 < |tags|
      modifies `tags, `links
      ensures Index(tags, links) == WithoutPost(old(Index(tags, links)), id)
    {
      var postHashtags := set l | l in links && l.0 == id;
      ghost var tags0 := tags;
      var rest := postHashtags;
      while rest != {}
        invariant rest <= postHashtags && |tags| == |tags0| && links == old(links)
        invariant forall i :: 0 <= i < |tags| ==>
          tags[i] == if (id, i) in postHashtags - rest then tags0[i].(postsCount := tags0[i].postsCount - 1) else tags0[i]
        decreases rest
      {
        var ph :| ph in rest;
        tags := tags[ph.1 := tags[ph.1].(postsCount := tags[ph.1].postsCount - 1)];
        rest := rest - {ph};
      }
      assert forall i :: (id, i) in postHashtags <==> (id, i) in links;
      assert tags == WithoutPost(Index(tags0, links), id).tags;
      links := set l | l in links && l.0 != id;
    }

    /** `id` is the identifier the database hands out. */
    method Create(id: Id, user: User, content: string, visibility: Visibility)
      requires id !in posts
      modifies this
      ensures Now() == Created(old(Now()), id, user, content, visibility)
      ensures posts == old(posts)[id := Post(user, content, visibility, false)]
    {
      posts := posts[id := Post(user, content, visibility, false)];
      ProcessHashtags(id, content);
      indexed := indexed[id := content];
    }

    method FindOne(id: Id, current: Option<User>, follows: bool) returns (outcome: Outcome)
      ensures outcome == Access(Now(), id, current, follows)
      ensures outcome == if id !in posts || posts[id].deleted then NotFound
                         else if MayRead(posts[id], current, follows) then Done else Forbidden
    {
      if id !in posts || posts[id].deleted {
        return NotFound;
      }
      if posts[id].visibility == Private && current != Some(posts[id].user) {
        return Forbidden;
      }
      if posts[id].visibility == Followers && current.Some? {
        if !follows && posts[id].user != current.value {
          return Forbidden;
        }
      }
      return Done;
    }

    method Update(id: Id, user: User, text: Option<string>, shown: Option<Visibility>) returns (outcome: Outcome)
      requires forall l :: l in links ==> l.1 < |tags|
      modifies this
      ensures outcome == if id !in old(posts) || old(posts)[id].deleted then NotFound
                         else if old(posts)[id].visibility != Private && old(posts)[id].user == user then Done else Forbidden
      ensures Now() == Updated(old(Now()), id, user, text, shown)
      ensures outcome != Done ==> posts == old(posts) && tags == old(tags) && links == old(links)
      ensures outcome == Done ==> id in posts && posts == old(posts)[id := posts[id]]
      ensures outcome == Done ==> posts[id].user == user && !posts[id].deleted
      ensures outcome == Done ==> posts[id].content == match text case Some(given) => given case None => old(posts)[id].content
      ensures outcome == Done ==> posts[id].visibility == match shown case Some(given) => given case None => old(posts)[id].visibility
      ensures text == None || text == Some("") ==> tags == old(tags) && links == old(links)
    {
      outcome := FindOne(id, None, false);
      if outcome != Done {
        return;
      }
      if posts[id].user != user {
        return Forbidden;
      }
      if text.Some? && text.value != "" {
        RemovePostHashtags(id);
        ProcessHashtags(id, text.value);
        indexed := indexed[id := text.value];
      }
      var p := posts[id];
      posts := posts[id := p.(content := if text.Some? then text.value else p.content,
                              visibility := if shown.Some? then shown.value else p.visibility)];
    }

    method Delete(id: Id, user: User) returns (outcome: Outcome)
      requires forall l :: l in links ==> l.1 < |tags|
      modifies this
      ensures outcome == if id !in old(posts) || old(posts)[id].deleted then NotFound
                         else if old(posts)[id].visibility != Private && old(posts)[id].user == user then Done else Forbidden
      ensures Now() == Deleted(old(Now()), id, user)
      ensures outcome != Done ==> posts == old(posts) && tags == old(tags) && links == old(links)
      ensures outcome == Done ==> posts == old(posts)[id := old(posts)[id].(deleted := true)]
      ensures outcome == Done ==> links == set l | l in old(links) && l.0 != id
    {
      outcome := FindOne(id, None, false);
      if outcome != Done {
        return;
      }
      if posts[id].user != user {
        return Forbidden;
      }
      RemovePostHashtags(id);
      posts := posts[id := posts[id].(deleted := true)];
      indexed := indexed[id := ""];
    }

    method Share(id: Id, user: User, original: Id, text: Option<string>, follows: bool) returns (outcome: Outcome)
      requires id !in posts
      modifies this
      ensures outcome == if original !in old(posts) || old(posts)[original].deleted then NotFound
                         else if MayRead(old(posts)[original], Some(user), follows) then Done else Forbidden
      ensures Now() == Shared(old(Now()), id, user, original, text, follows)
      ensures tags == old(tags) && links == old(links)
      ensures outcome != Done ==> posts == old(posts)
      ensures outcome == Done && text != None ==> posts == old(posts)[id := Post(user, text.value, Public, false)]
      ensures outcome == Done && text == None ==> posts == old(posts)[id := Post(user, "", Public, false)]
    {
      outcome := FindOne(original, Some(user), follows);
      if outcome != Done {
        return;
      }
      posts := posts[id := Post(user, if text.Some? then text.value else "", Public, false)];
      indexed := indexed[id := ""];
    }
  }
}
