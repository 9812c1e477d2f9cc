/** The story feed: grouping by author in one pass, then sorting (stories.service.ts). */
module Stories {
  import opened Sorting

  type Id = string
  type UserId = string

  datatype Story = Story(id: Id, userId: UserId, createdAt: int, expiresAt: int)

  datatype Item = Item(story: Story, hasViewed: bool)

  datatype Group = Group(userId: UserId, hasUnviewed: bool, latestStoryAt: int, stories: seq<Item>)

  /** Unexpired, by somebody followed or by the reader, and by nobody blocked. */
  predicate Eligible(s: Story, me: UserId, following: seq<UserId>, blocked: seq<UserId>, now: int) {
    && (s.userId in following || s.userId == me)
    && s.expiresAt > now
    && s.userId !in blocked
  }

  /** The item is one the reader gets to see in the group of `user`. */
  predicate Belongs(item: Item, user: UserId, viewed: set<Id>) {
    item.story.userId == user && item.hasViewed == (item.story.id in viewed)
  }

  /** `group` holds exactly the stories of its user among `rows`, as often as they occur
      there, and its two summary fields are right. */
  ghost predicate GroupIsRight(group: Group, rows: multiset<Story>, viewed: set<Id>) {
    && Gathers(group, rows, viewed)
    && SummaryIsRight(group)
  }

  ghost predicate Gathers(group: Group, rows: multiset<Story>, viewed: set<Id>) {
    forall item {:trigger multiset(group.stories)[item]} :: multiset(group.stories)[item]
      == if Belongs(item, group.userId, viewed) then rows[item.story] else 0
  }

  ghost predicate SummaryIsRight(group: Group) {
    && (group.hasUnviewed <==> exists item :: item in group.stories && !item.hasViewed)
    && (forall item | item in group.stories :: item.story.createdAt <= group.latestStoryAt)
    && (exists item :: item in group.stories && item.story.createdAt == group.latestStoryAt)
  }

  // ---------------------------------------------------------------- grouping

  /** The loop body's effect on the group of the story's author. */
  function Push(group: Group, story: Story, hasViewed: bool): Group {
    Group(
      group.userId,
      group.hasUnviewed || !hasViewed,
      if story.createdAt > group.latestStoryAt then story.createdAt else group.latestStoryAt,
      group.stories + [Item(story, hasViewed)])
  }

  lemma PushGathers(group: Group, rows: multiset<Story>, story: Story, viewed: set<Id>)
    requires Gathers(group, rows, viewed) && group.userId == story.userId
    ensures Gathers(Push(group, story, story.id in viewed), rows + multiset{story}, viewed)
  {
    var item := Item(story, story.id in viewed);
    assert multiset(group.stories + [item]) == multiset(group.stories) + multiset{item};
  }

  lemma PushSummary(group: Group, story: Story, hasViewed: bool)
    requires SummaryIsRight(group) || (group.stories == []
      && group.hasUnviewed == !hasViewed && group.latestStoryAt == story.createdAt)
    ensures SummaryIsRight(Push(group, story, hasViewed))
  {
    var r := Push(group, story, hasViewed);
    var item := Item(story, hasViewed);
    assert item in r.stories;
    forall x | x in group.stories ensures x in r.stories {}
    if story.createdAt <= group.latestStoryAt && group.stories != [] {
      var top :| top in group.stories && top.story.createdAt == group.latestStoryAt;
      assert top in r.stories;
    }
  }

  lemma OthersUntouched(group: Group, rows: multiset<Story>, story: Story, viewed: set<Id>)
    requires Gathers(group, rows, viewed) && group.userId != story.userId
    ensures Gathers(group, rows + multiset{story}, viewed)
  {
  }

  /** The state of the insertion-ordered Map after the stories `rows`. */
  ghost predicate Grouped(order: seq<UserId>, byUser: map<UserId, Group>, rows: multiset<Story>, viewed: set<Id>) {
    InsertionOrder(order, byUser) && GroupsAreRight(byUser, rows, viewed)
  }

  ghost predicate InsertionOrder(order: seq<UserId>, byUser: map<UserId, Group>) {
    && (forall i, j | 0 <= i < j < |order| :: order[i] != order[j])
    && (forall u :: u in order <==> u in byUser)
  }

  ghost predicate GroupsAreRight(byUser: map<UserId, Group>, rows: multiset<Story>, viewed: set<Id>) {
    && (forall u | u in byUser :: byUser[u].userId == u && GroupIsRight(byUser[u], rows, viewed))
    && (forall s | s in rows :: s.userId in byUser)
  }

  function Opened(byUser: map<UserId, Group>, story: Story, hasViewed: bool): Group {
    if story.userId in byUser then byUser[story.userId]
    else Group(story.userId, !hasViewed, story.createdAt, [])
  }

  lemma NewGroupGathers(rows: multiset<Story>, byUser: map<UserId, Group>, story: Story, viewed: set<Id>)
    requires story.userId !in byUser
    requires forall s | s in rows :: s.userId in byUser
    ensures Gathers(Opened(byUser, story, story.id in viewed), rows, viewed)
  {
  }

  lemma PushedIsRight(byUser: map<UserId, Group>, rows: multiset<Story>, viewed: set<Id>, story: Story)
    requires GroupsAreRight(byUser, rows, viewed)
    ensures var group := Push(Opened(byUser, story, story.id in viewed), story, story.id in viewed);
      group.userId == story.userId && GroupIsRight(group, rows + multiset{story}, viewed)
  {
    var group := Opened(byUser, story, story.id in viewed);
    if story.userId !in byUser {
      NewGroupGathers(rows, byUser, story, viewed);
    }
    PushGathers(group, rows, story, viewed);
    PushSummary(group, story, story.id in viewed);
  }

  lemma GroupStep(byUser: map<UserId, Group>, rows: multiset<Story>, viewed: set<Id>, story: Story, pushed: Group)
    requires GroupsAreRight(byUser, rows, viewed)
    requires pushed.userId == story.userId && GroupIsRight(pushed, rows + multiset{story}, viewed)
    ensures GroupsAreRight(byUser[story.userId := pushed], rows + multiset{story}, viewed)
  {
    forall u | u in byUser && u != story.userId ensures GroupIsRight(byUser[u], rows + multiset{story}, viewed) {
      OthersUntouched(byUser[u], rows, story, viewed);
    }
  }

  lemma PrefixGrows(stories: seq<Story>, i: nat)
    requires i < |stories|
    ensures multiset(stories[..i + 1]) == multiset(stories[..i]) + multiset{stories[i]}
  {
    assert stories[..i + 1] == stories[..i] + [stories[i]];
  }

  lemma OrderGrows(order: seq<UserId>, byUser: map<UserId, Group>, user: UserId, group: Group)
    requires InsertionOrder(order, byUser)
    ensures InsertionOrder(if user in byUser then order else order + [user], byUser[user := group])
  {
  }

  /** One round of the loop. */
  method AddStory(order: seq<UserId>, byUser: map<UserId, Group>, story: Story, hasViewed: bool)
    returns (order': seq<UserId>, byUser': map<UserId, Group>)
    ensures order' == if story.userId in byUser then order else order + [story.userId]
    ensures byUser' == byUser[story.userId := Push(Opened(byUser, story, hasViewed), story, hasViewed)]
  {
    order', byUser' := order, byUser;
    if story.userId !in byUser' {
      byUser' := byUser'[story.userId := Group(story.userId, !hasViewed, story.createdAt, [])];
      order' := order' + [story.userId];
    }
    byUser' := byUser'[story.userId := Push(byUser'[story.userId], story, hasViewed)];
  }

  method GroupByUser(stories: seq<Story>, viewed: set<Id>) returns (order: seq<UserId>, byUser: map<UserId, Group>)
    ensures Grouped(order, byUser, multiset(stories), viewed)
  {
    order, byUser := [], map[];
    for i := 0 to |stories|
      invariant Grouped(order, byUser, multiset(stories[..i]), viewed)
    {
      var story := stories[i];
      PrefixGrows(stories, i);
      RoundIsRight(order, byUser, multiset(stories[..i]), viewed, story);
      order, byUser := AddStory(order, byUser, story, story.id in viewed);
    }
    assert stories[..|stories|] == stories;
  }

  lemma RoundIsRight(order: seq<UserId>, byUser: map<UserId, Group>, rows: multiset<Story>, viewed: set<Id>, story: Story)
    requires Grouped(order, byUser, rows, viewed)
    ensures var pushed := Push(Opened(byUser, story, story.id in viewed), story, story.id in viewed);
      Grouped(if story.userId in byUser then order else order + [story.userId],
        byUser[story.userId := pushed], rows + multiset{story}, viewed)
  {
    var pushed := Push(Opened(byUser, story, story.id in viewed), story, story.id in viewed);
    PushedIsRight(byUser, rows, viewed, story);
    GroupStep(byUser, rows, viewed, story, pushed);
    OrderGrows(order, byUser, story.userId, pushed);
  }

  // ---------------------------------------------------------------- sorting

  /** The comparator of the groups. */
  function CompareGroups(me: UserId): (Group, Group) -> int {
    (a: Group, b: Group) =>
      if a.userId == me then -1
      else if b.userId == me then 1
      else if a.hasUnviewed && !b.hasUnviewed then -1
      else if !a.hasUnviewed && b.hasUnviewed then 1
      else b.latestStoryAt - a.latestStoryAt
  }

  function CompareItems(): (Item, Item) -> int {
    (a: Item, b: Item) => a.story.createdAt - b.story.createdAt
  }

  /** Two groups get contradicting answers exactly when both are the reader's own: on
      groups of different users the comparator is a strict weak order. */
  lemma ComparatorIsAntisymmetric(a: Group, b: Group, me: UserId)
    ensures var cmp := CompareGroups(me);
      (cmp(a, b) < 0 <==> cmp(b, a) > 0) <==> !(a.userId == me == b.userId)
  {
  }

  lemma ComparatorIsTransitive(a: Group, b: Group, c: Group, me: UserId)
    requires a.userId != b.userId && b.userId != c.userId && a.userId != c.userId
    ensures var cmp := CompareGroups(me);
      && (cmp(a, b) < 0 && cmp(b, c) < 0 ==> cmp(a, c) < 0)
      && (cmp(a, b) == 0 && cmp(b, c) == 0 ==> cmp(a, c) == 0)
  {
  }

  /** The reader first, then who has something new, then by the latest story. */
  ghost predicate FeedOrder(users: seq<Group>, me: UserId) {
    && (forall i | 0 <= i < |users| :: users[i].userId == me ==> i == 0)
    && (forall i, j | 0 <= i < j < |users| && users[i].userId != me ::
          && (users[j].hasUnviewed ==> users[i].hasUnviewed)
          && (users[i].hasUnviewed == users[j].hasUnviewed ==> users[i].latestStoryAt >= users[j].latestStoryAt))
  }

  function UserOf(): Group -> UserId {
    (g: Group) => g.userId
  }

  ghost predicate DistinctUsers(users: seq<Group>) {
    DistinctKeys(users, UserOf())
  }

  lemma GroupsConsistent(users: seq<Group>, me: UserId)
    requires DistinctUsers(users)
    ensures Consistent(Elems(users), CompareGroups(me))
  {
    var cmp := CompareGroups(me);
    forall a, b, c | a in users && b in users && c in users && cmp(a, b) <= 0 && cmp(b, c) <= 0
      ensures cmp(a, c) <= 0
    {
    }
  }

  /** The order of the feed comes out of the sort. */
  lemma SortedFeed(users: seq<Group>, me: UserId)
    requires DistinctUsers(users)
    ensures var r := SortBy(users, CompareGroups(me));
      FeedOrder(r, me) && DistinctUsers(r)
  {
    var cmp := CompareGroups(me);
    var r := SortBy(users, cmp);
    GroupsConsistent(users, me);
    SortByOrders(users, cmp);
    RearrangedStaysDistinct(users, r, UserOf());
    forall i | 0 < i < |r| ensures r[i].userId != me {
      assert cmp(r[0], r[i]) <= 0;
    }
    forall i, j | 0 <= i < j < |r| && r[i].userId != me
      ensures r[j].hasUnviewed ==> r[i].hasUnviewed
      ensures r[i].hasUnviewed == r[j].hasUnviewed ==> r[i].latestStoryAt >= r[j].latestStoryAt
    {
      assert cmp(r[i], r[j]) <= 0;
    }
  }

  lemma ItemsConsistent(items: seq<Item>)
    ensures Consistent(Elems(items), CompareItems())
  {
  }

  ghost predicate OldestFirst(items: seq<Item>) {
    forall j, k | 0 <= j < k < |items| :: items[j].story.createdAt <= items[k].story.createdAt
  }

  lemma SortedItems(items: seq<Item>)
    ensures OldestFirst(SortBy(items, CompareItems()))
  {
    var cmp := CompareItems();
    var r := SortBy(items, cmp);
    ItemsConsistent(items);
    SortByOrders(items, cmp);
    forall j, k | 0 <= j < k < |r| ensures r[j].story.createdAt <= r[k].story.createdAt {
      assert cmp(r[j], r[k]) <= 0;
    }
  }

  /** Sorting the stories of a group changes nothing else about it. */
  function SortStories(group: Group): Group {
    group.(stories := SortBy(group.stories, CompareItems()))
  }

  lemma SortedGroup(group: Group, rows: multiset<Story>, viewed: set<Id>)
    requires GroupIsRight(group, rows, viewed)
    ensures GroupIsRight(SortStories(group), rows, viewed)
    ensures OldestFirst(SortStories(group).stories)
  {
    SortedItems(group.stories);
    SameMembers(group.stories, SortStories(group).stories);
  }

  // ---------------------------------------------------------------- the feed

  /** The rows that the query selects. */
  function Select(table: seq<Story>, me: UserId, following: seq<UserId>, blocked: seq<UserId>, now: int): seq<Story> {
    if table == [] then []
    else
      var rest := Select(table[..|table| - 1], me, following, blocked, now);
      var last := table[|table| - 1];
      if Eligible(last, me, following, blocked, now) then rest + [last] else rest
  }

  lemma {:induction false} SelectCounts(table: seq<Story>, me: UserId, following: seq<UserId>, blocked: seq<UserId>, now: int, s: Story)
    ensures multiset(Select(table, me, following, blocked, now))[s]
         == if Eligible(s, me, following, blocked, now) then multiset(table)[s] else 0
  {
    if table != [] {
      SelectCounts(table[..|table| - 1], me, following, blocked, now, s);
      assert table == table[..|table| - 1] + [table[|table| - 1]];
    }
  }

  function NewestFirst(): (Story, Story) -> int {
    (a: Story, b: Story) => b.createdAt - a.createdAt
  }

  function ViewedBy(views: set<(Id, UserId)>, me: UserId): set<Id> {
    set v | v in views && v.1 == me :: v.0
  }

  ghost predicate EachRight(users: seq<Group>, rows: multiset<Story>, viewed: set<Id>) {
    forall i | 0 <= i < |users| :: GroupIsRight(users[i], rows, viewed)
  }

  ghost predicate HasGroup(users: seq<Group>, user: UserId) {
    exists i :: 0 <= i < |users| && users[i].userId == user
  }

  ghost predicate AllRight(users: seq<Group>, rows: multiset<Story>, viewed: set<Id>) {
    && DistinctUsers(users)
    && EachRight(users, rows, viewed)
    && (forall s | s in rows :: HasGroup(users, s.userId))
  }

  /** The values of the Map, in insertion order. */
  lemma ValuesAreRight(order: seq<UserId>, byUser: map<UserId, Group>, users: seq<Group>, rows: multiset<Story>, viewed: set<Id>)
    requires InsertionOrder(order, byUser) && GroupsAreRight(byUser, rows, viewed)
    requires |users| == |order| && forall i | 0 <= i < |order| :: order[i] in byUser && users[i] == byUser[order[i]]
    ensures AllRight(users, rows, viewed)
  {
    forall s | s in rows ensures HasGroup(users, s.userId) {
      assert s.userId in order;
      var i: nat :| i < |order| && order[i] == s.userId;
      assert users[i].userId == s.userId;
    }
  }

  lemma HasGroupRearranged(a: seq<Group>, b: seq<Group>, user: UserId)
    requires HasGroup(a, user) && multiset(a) == multiset(b)
    ensures HasGroup(b, user)
  {
    SameMembers(a, b);
    var i: nat :| i < |a| && a[i].userId == user;
    assert a[i] in b;
  }

  lemma EachRightRearranged(a: seq<Group>, b: seq<Group>, rows: multiset<Story>, viewed: set<Id>)
    requires EachRight(a, rows, viewed) && multiset(a) == multiset(b)
    ensures EachRight(b, rows, viewed)
  {
    SameMembers(a, b);
    forall j | 0 <= j < |b| ensures GroupIsRight(b[j], rows, viewed) {
      assert b[j] in a;
      var i: nat :| i < |a| && a[i] == b[j];
    }
  }

  lemma SortingKeepsRight(a: seq<Group>, b: seq<Group>, rows: multiset<Story>, viewed: set<Id>)
    requires AllRight(a, rows, viewed) && multiset(a) == multiset(b)
    ensures AllRight(b, rows, viewed)
  {
    RearrangedStaysDistinct(a, b, UserOf());
    EachRightRearranged(a, b, rows, viewed);
    forall s | s in rows ensures HasGroup(b, s.userId) {
      HasGroupRearranged(a, b, s.userId);
    }
  }

  ghost predicate StoriesAscend(users: seq<Group>) {
    forall i | 0 <= i < |users| :: OldestFirst(users[i].stories)
  }

  /** Neither the users nor their summaries move when their stories are sorted. */
  lemma SortedStoriesKeepOrder(a: seq<Group>, b: seq<Group>, me: UserId)
    requires DistinctUsers(a) && FeedOrder(a, me)
    requires |a| == |b| && forall i | 0 <= i < |a| :: b[i] == SortStories(a[i])
    ensures DistinctUsers(b) && FeedOrder(b, me)
  {
    forall i, j | 0 <= i < j < |b| ensures b[i].userId != b[j].userId {
      assert UserOf()(a[i]) != UserOf()(a[j]);
    }
  }

  lemma SortedStoriesStayRight(a: seq<Group>, b: seq<Group>, rows: multiset<Story>, viewed: set<Id>)
    requires EachRight(a, rows, viewed)
    requires |a| == |b| && forall i | 0 <= i < |a| :: b[i] == SortStories(a[i])
    ensures EachRight(b, rows, viewed) && StoriesAscend(b)
  {
    forall i | 0 <= i < |b| ensures GroupIsRight(b[i], rows, viewed) && OldestFirst(b[i].stories) {
      SortedGroup(a[i], rows, viewed);
    }
  }

  lemma StoriesSorted(a: seq<Group>, b: seq<Group>, rows: multiset<Story>, viewed: set<Id>, me: UserId)
    requires AllRight(a, rows, viewed) && FeedOrder(a, me)
    requires |a| == |b| && forall i | 0 <= i < |a| :: b[i] == SortStories(a[i])
    ensures AllRight(b, rows, viewed) && FeedOrder(b, me) && StoriesAscend(b)
  {
    SortedStoriesKeepOrder(a, b, me);
    SortedStoriesStayRight(a, b, rows, viewed);
    forall s | s in rows ensures HasGroup(b, s.userId) {
      var i: nat :| i < |a| && a[i].userId == s.userId;
      assert b[i].userId == s.userId;
    }
  }

  method GroupsOf(stories: seq<Story>, viewed: set<Id>) returns (users: seq<Group>)
    ensures AllRight(users, multiset(stories), viewed)
  {
    var order, byUser := GroupByUser(stories, viewed);
    assert forall i | 0 <= i < |order| :: order[i] in order;
    users := seq(|order|, i requires 0 <= i < |order| => byUser[order[i]]);
    ValuesAreRight(order, byUser, users, multiset(stories), viewed);
  }

  method SortFeed(groups: seq<Group>, ghost rows: multiset<Story>, ghost viewed: set<Id>, me: UserId) returns (users: seq<Group>)
    requires AllRight(groups, rows, viewed)
    ensures AllRight(users, rows, viewed) && FeedOrder(users, me) && StoriesAscend(users)
  {
    var sorted := SortBy(groups, CompareGroups(me));
    users := seq(|sorted|, i requires 0 <= i < |sorted| => SortStories(sorted[i]));
    SortedFeed(groups, me);
    SortingKeepsRight(groups, sorted, rows, viewed);
    StoriesSorted(sorted, users, rows, viewed, me);
  }

  /** Somebody followed, or the reader, posted the story, nobody blocked did, and it is there
      until after `now`. */
  ghost predicate ShownTo(s: Story, me: UserId, following: seq<UserId>, blocked: seq<UserId>, now: int) {
    now < s.expiresAt && s.userId in following + [me] && !(s.userId in blocked)
  }

  /** The group holds its author's stories of the table that the reader is shown, as often as
      they are in it, `hasViewed` telling whether the reader has a view row. */
  ghost predicate Collects(
      group: Group, table: seq<Story>, views: set<(Id, UserId)>, me: UserId,
      following: seq<UserId>, blocked: seq<UserId>, now: int)
  {
    forall story: Story, hasViewed: bool {:trigger multiset(group.stories)[Item(story, hasViewed)]} ::
      multiset(group.stories)[Item(story, hasViewed)]
        == if story.userId == group.userId && ShownTo(story, me, following, blocked, now)
              && hasViewed == ((story.id, me) in views)
           then multiset(table)[story] else 0
  }

  lemma CollectsSelected(
      group: Group, table: seq<Story>, views: set<(Id, UserId)>, me: UserId,
      following: seq<UserId>, blocked: seq<UserId>, now: int)
    requires Gathers(group, multiset(Select(table, me, following, blocked, now)), ViewedBy(views, me))
    ensures Collects(group, table, views, me, following, blocked, now)
  {
    forall story: Story, hasViewed: bool {:trigger multiset(group.stories)[Item(story, hasViewed)]}
      ensures multiset(group.stories)[Item(story, hasViewed)]
        == if story.userId == group.userId && ShownTo(story, me, following, blocked, now)
              && hasViewed == ((story.id, me) in views)
           then multiset(table)[story] else 0
    {
      SelectCounts(table, me, following, blocked, now, story);
      assert (story.id, me) in views <==> story.id in ViewedBy(views, me);
    }
  }

  lemma ShownIsSelected(
      s: Story, table: seq<Story>, me: UserId,
      following: seq<UserId>, blocked: seq<UserId>, now: int)
    requires s in table && ShownTo(s, me, following, blocked, now)
    ensures s in multiset(Select(table, me, following, blocked, now))
  {
    SelectCounts(table, me, following, blocked, now, s);
  }

  /** `getFeedStories`. Every story the reader is shown lies in the group of its author, each
      group belongs to one author and holds that author's stories, as often as they are in
      the table and oldest first; groups, summaries and their order are right. */
  method GetFeedStories(
      table: seq<Story>, views: set<(Id, UserId)>, me: UserId,
      following: seq<UserId>, blocked: seq<UserId>, now: int)
    returns (users: seq<Group>)
    ensures DistinctUsers(users)
    ensures forall s | s in table && ShownTo(s, me, following, blocked, now) :: HasGroup(users, s.userId)
    ensures forall i | 0 <= i < |users| :: Collects(users[i], table, views, me, following, blocked, now)
    ensures forall i | 0 <= i < |users| :: SummaryIsRight(users[i])
    ensures forall i, j, k | 0 <= i < |users| && 0 <= j < k < |users[i].stories| ::
      users[i].stories[j].story.createdAt <= users[i].stories[k].story.createdAt
    ensures FeedOrder(users, me)
  {
    var stories := SortBy(Select(table, me, following, blocked, now), NewestFirst());
    var viewed := ViewedBy(views, me);
    users := GroupsOf(stories, viewed);
    users := SortFeed(users, multiset(stories), viewed, me);
    Conclude(users, table, views, me, following, blocked, now);
  }

  lemma Conclude(
      users: seq<Group>, table: seq<Story>, views: set<(Id, UserId)>, me: UserId,
      following: seq<UserId>, blocked: seq<UserId>, now: int)
    requires AllRight(users, multiset(Select(table, me, following, blocked, now)), ViewedBy(views, me))
    ensures forall s | s in table && ShownTo(s, me, following, blocked, now) :: HasGroup(users, s.userId)
    ensures forall i | 0 <= i < |users| :: SummaryIsRight(users[i])
    ensures forall i | 0 <= i < |users| :: Collects(users[i], table, views, me, following, blocked, now)
  {
    var rows := multiset(Select(table, me, following, blocked, now));
    forall s | s in table && ShownTo(s, me, following, blocked, now) ensures HasGroup(users, s.userId) {
      ShownIsSelected(s, table, me, following, blocked, now);
    }
    forall i | 0 <= i < |users|
      ensures SummaryIsRight(users[i]) && Collects(users[i], table, views, me, following, blocked, now)
    {
      assert GroupIsRight(users[i], rows, ViewedBy(views, me));
      CollectsSelected(users[i], table, views, me, following, blocked, now);
    }
  }
}
