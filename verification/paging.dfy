/** Cursor paging, newest first, over rows with distinct time stamps (chat.service.ts,
    posts.service.ts, comments.service.ts). */
module Paging {
  import opened Options

  type Id = string

  datatype Row = Row(id: Id, createdAt: int)

  /** No two rows share a time stamp. */
  predicate Distinct(s: set<Row>) {
    forall a, b | a in s && b in s :: a.createdAt == b.createdAt ==> a == b
  }

  predicate NewestFirst(rows: seq<Row>) {
    forall i, j | 0 <= i < j < |rows| :: rows[i].createdAt > rows[j].createdAt
  }

  /** `rows` lists every row of `s` once, newest first. */
  predicate Lists(rows: seq<Row>, s: set<Row>) {
    && NewestFirst(rows)
    && (forall r | r in rows :: r in s)
    && (forall r | r in s :: r in rows)
  }

  lemma {:induction false} NewestExists(s: set<Row>)
    requires s != {}
    ensures exists r :: r in s && forall q | q in s :: q.createdAt <= r.createdAt
    decreases |s|
  {
    var r :| r in s;
    if s == {r} {
      assert forall q | q in s :: q.createdAt <= r.createdAt;
    } else {
      NewestExists(s - {r});
      var q :| q in s - {r} && forall x | x in s - {r} :: x.createdAt <= q.createdAt;
      var m := if q.createdAt > r.createdAt then q else r;
      assert forall x | x in s :: x == r || x in s - {r};
      assert forall x | x in s :: x.createdAt <= m.createdAt;
    }
  }

  function Newest(s: set<Row>): (r: Row)
    requires s != {} && Distinct(s)
    ensures r in s && forall q :: q in s ==> q.createdAt <= r.createdAt
  {
    NewestExists(s);
    var r :| r in s && forall q | q in s :: q.createdAt <= r.createdAt;
    r
  }

  /** ORDER BY created_at DESC. */
  function Desc(s: set<Row>): seq<Row>
    requires Distinct(s)
    decreases |s|
  {
    if s == {} then [] else [Newest(s)] + Desc(s - {Newest(s)})
  }

  lemma {:induction false} DescLists(s: set<Row>)
    requires Distinct(s)
    ensures Lists(Desc(s), s) && |Desc(s)| == |s|
    decreases |s|
  {
    if s != {} {
      var top := Newest(s);
      DescLists(s - {top});
      ConsLists(top, Desc(s - {top}), s);
    }
  }

  lemma ConsLists(top: Row, rest: seq<Row>, s: set<Row>)
    requires top in s && Distinct(s) && forall q | q in s :: q.createdAt <= top.createdAt
    requires Lists(rest, s - {top})
    ensures Lists([top] + rest, s)
  {
    var all := [top] + rest;
    forall j | 0 <= j < |rest| ensures rest[j].createdAt < top.createdAt {
      assert rest[j] in rest;
    }
    forall r | r in s ensures r in all {
      assert r == top || r in rest;
    }
  }

  lemma SameFirst(a: seq<Row>, b: seq<Row>, s: set<Row>)
    requires Lists(a, s) && Lists(b, s) && Distinct(s) && a != []
    ensures b != [] && a[0] == b[0]
  {
    assert a[0] in b;
    assert b[0] in a;
  }

  /** There is only one way to list a set. */
  lemma {:induction false} ListedOnce(a: seq<Row>, b: seq<Row>, s: set<Row>)
    requires Lists(a, s) && Lists(b, s) && Distinct(s)
    ensures a == b
    decreases |a|
  {
    assert b != [] ==> b[0] in b;
    if a == [] {
      assert s == {};
    } else {
      SameFirst(a, b, s);
      TailLists(a, s);
      TailLists(b, s);
      ListedOnce(a[1..], b[1..], s - {a[0]});
      assert a == [a[0]] + a[1..] && b == [b[0]] + b[1..];
    }
  }

  lemma TheOneListing(rows: seq<Row>, s: set<Row>)
    requires Lists(rows, s) && Distinct(s)
    ensures rows == Desc(s)
  {
    DescLists(s);
    ListedOnce(rows, Desc(s), s);
  }

  lemma TailLists(a: seq<Row>, s: set<Row>)
    requires Lists(a, s) && a != []
    ensures Lists(a[1..], s - {a[0]})
  {
    forall r | r in s - {a[0]} ensures r in a[1..] {
      var i: nat :| i < |a| && a[i] == r;
      assert a[1..][i - 1] == r;
    }
  }

  /** A listing of n rows is of a set of n rows. */
  lemma {:induction false} ListedSize(a: seq<Row>, s: set<Row>)
    requires Lists(a, s)
    ensures |a| == |s|
    decreases |a|
  {
    if a == [] {
      assert s == {};
    } else {
      TailLists(a, s);
      assert a[0] in s;
      ListedSize(a[1..], s - {a[0]});
    }
  }

  function Below(s: set<Row>, bound: Option<int>): set<Row> {
    set r | r in s && (bound.Some? ==> r.createdAt < bound.value)
  }

  function Take(rows: seq<Row>, n: nat): seq<Row> {
    if |rows| <= n then rows else rows[..n]
  }

  /** The rows older than the k-th are the rest of the list. */
  lemma RestLists(all: seq<Row>, s: set<Row>, k: nat)
    requires Lists(all, s) && 0 < k <= |all|
    ensures Lists(all[k..], Below(s, Some(all[k - 1].createdAt)))
  {
    forall r | r in Below(s, Some(all[k - 1].createdAt)) ensures r in all[k..] {
      var i: nat :| i < |all| && all[i] == r;
      assert all[k..][i - k] == r;
    }
  }

  lemma BelowBelow(s: set<Row>, bound: Option<int>, r: Row)
    requires r in Below(s, bound)
    ensures Below(Below(s, bound), Some(r.createdAt)) == Below(s, Some(r.createdAt))
  {
  }

  // ---------------------------------------------------------------- one page

  datatype Page = Page(items: seq<Row>, hasMore: bool)

  /** One row too many is fetched, and dropped again if it came. */
  function PageOf(ordered: seq<Row>, limit: nat): Page {
    var rows := Take(ordered, limit + 1);
    if |rows| > limit then Page(rows[..limit], true) else Page(rows, false)
  }

  /** A page holds the first rows of the order, and `hasMore` says whether others remain. */
  lemma PageIsAPrefix(ordered: seq<Row>, limit: nat)
    ensures PageOf(ordered, limit) == Page(Take(ordered, limit), |ordered| > limit)
  {
    assert |ordered| > limit ==> ordered[..limit + 1][..limit] == ordered[..limit];
  }

  /** The page of the newest rows below a bound. */
  function NewestPage(s: set<Row>, bound: Option<int>, limit: nat): Page
    requires Distinct(s)
  {
    PageOf(Desc(Below(s, bound)), limit)
  }

  /** What follows a page in a listing lists the rows below the page's last one. */
  lemma PageSplits(all: seq<Row>, sel: set<Row>, n: nat, last: Row)
    requires Lists(all, sel) && 0 < n <= |all| && last == all[n - 1]
    ensures last in sel
    ensures Lists(all[n..], Below(sel, Some(last.createdAt)))
    ensures |Below(sel, Some(last.createdAt))| == |sel| - n == |all| - n
    ensures all == all[..n] + all[n..]
  {
    assert last in all;
    RestLists(all, sel, n);
    ListedSize(all, sel);
    ListedSize(all[n..], Below(sel, Some(last.createdAt)));
  }

  lemma PageCuts(all: seq<Row>, limit: nat, page: Page)
    requires page == PageOf(all, limit)
    ensures |page.items| <= |all| && page.items == all[..|page.items|]
    ensures page.hasMore <==> |page.items| < |all|
  {
    PageIsAPrefix(all, limit);
  }

  /** Behind the n-th row of an order lie exactly the rows below it. */
  lemma RestIsBelow(s: set<Row>, bound: Option<int>, n: nat, last: Row)
    requires Distinct(s) && 0 < n <= |Desc(Below(s, bound))| && last == Desc(Below(s, bound))[n - 1]
    ensures last in s
    ensures Desc(Below(s, bound)) == Desc(Below(s, bound))[..n] + Desc(Below(s, Some(last.createdAt)))
    ensures |Below(s, Some(last.createdAt))| == |Below(s, bound)| - n == |Desc(Below(s, bound))| - n
  {
    var sel, all := Below(s, bound), Desc(Below(s, bound));
    DescLists(sel);
    PageSplits(all, sel, n, last);
    BelowBelow(s, bound, last);
    TheOneListing(all[n..], Below(s, Some(last.createdAt)));
  }

  /** The last row of a page is the cursor behind which exactly the rest lies, and
      `hasMore` says whether there is any rest. */
  lemma CursorLeadsOn(s: set<Row>, bound: Option<int>, limit: nat, page: Page, last: Row)
    requires Distinct(s) && page == NewestPage(s, bound, limit)
    requires page.items != [] && last == page.items[|page.items| - 1]
    ensures last in s
    ensures Desc(Below(s, bound)) == page.items + Desc(Below(s, Some(last.createdAt)))
    ensures |Below(s, Some(last.createdAt))| < |Below(s, bound)|
    ensures page.hasMore <==> Below(s, Some(last.createdAt)) != {}
  {
    PageCuts(Desc(Below(s, bound)), limit, page);
    RestIsBelow(s, bound, |page.items|, last);
  }

  /** What a page of `n` rows is: rows of the selection, newest first, as many as there are
      or as fit, and none that is left out is newer than one that is not. */
  lemma PageMeaning(sel: set<Row>, n: nat, items: seq<Row>)
    requires Distinct(sel) && items == Take(Desc(sel), n)
    ensures NewestFirst(items) && forall r | r in items :: r in sel
    ensures forall r, q | r in sel && r !in items && q in items :: r.createdAt < q.createdAt
    ensures |items| == if |sel| <= n then |sel| else n
    ensures |sel| > n <==> exists r :: r in sel && r !in items
  {
    DescLists(sel);
    var all := Desc(sel);
    assert forall r | r in items :: r in all;
    forall r, q | r in sel && r !in items && q in items ensures r.createdAt < q.createdAt {
      LeftOutIsOlder(all, items, r, q);
    }
    if |all| > n {
      LeftOut(all, n);
      assert all[n] in all;
    }
  }

  lemma LeftOutIsOlder(all: seq<Row>, items: seq<Row>, r: Row, q: Row)
    requires NewestFirst(all) && items <= all
    requires r in all && r !in items && q in items
    ensures r.createdAt < q.createdAt
  {
    assert forall k | 0 <= k < |items| :: all[k] == items[k] && items[k] in items;
    var i: nat :| i < |items| && items[i] == q;
    var j: nat :| j < |all| && all[j] == r;
    assert all[i].createdAt > all[j].createdAt;
  }

  lemma LeftOut(all: seq<Row>, n: nat)
    requires NewestFirst(all) && n < |all|
    ensures all[n] !in all[..n]
  {
    forall i | 0 <= i < n ensures all[..n][i] != all[n] {
      assert all[i].createdAt > all[n].createdAt;
    }
  }

  lemma FullPage(s: set<Row>, bound: Option<int>, limit: nat, page: Page)
    requires Distinct(s) && page == NewestPage(s, bound, limit) && page.hasMore
    ensures |page.items| == limit
  {
    PageIsAPrefix(Desc(Below(s, bound)), limit);
  }

  // ---------------------------------------------------------------- walking by time stamp

  /** Page after page, each asked for with the time stamp of the last row, until there is
      no more. */
  function Walk(s: set<Row>, bound: Option<int>, limit: nat): seq<Row>
    requires Distinct(s) && limit > 0
    decreases |Below(s, bound)|
  {
    var page := NewestPage(s, bound, limit);
    if !page.hasMore then page.items
    else
      PageIsAPrefix(Desc(Below(s, bound)), limit);
      var last := page.items[|page.items| - 1];
      CursorLeadsOn(s, bound, limit, page, last);
      page.items + Walk(s, Some(last.createdAt), limit)
  }

  /** The walk ends and yields every row below the bound once, newest first. */
  lemma {:induction false} WalkIsComplete(s: set<Row>, bound: Option<int>, limit: nat)
    requires Distinct(s) && limit > 0
    ensures Lists(Walk(s, bound, limit), Below(s, bound))
  {
    WalkIsTheOrder(s, bound, limit);
    DescLists(Below(s, bound));
  }

  lemma {:induction false} WalkIsTheOrder(s: set<Row>, bound: Option<int>, limit: nat)
    requires Distinct(s) && limit > 0
    ensures Walk(s, bound, limit) == Desc(Below(s, bound))
    decreases |Below(s, bound)|
  {
    PageIsAPrefix(Desc(Below(s, bound)), limit);
    var page := NewestPage(s, bound, limit);
    if page.hasMore {
      var last := page.items[|page.items| - 1];
      CursorLeadsOn(s, bound, limit, page, last);
      WalkIsTheOrder(s, Some(last.createdAt), limit);
    }
  }

  // ---------------------------------------------------------------- messages

  function Reversed(s: seq<Row>): (r: seq<Row>)
    ensures |r| == |s| && forall i | 0 <= i < |s| :: r[i] == s[|s| - 1 - i]
  {
    seq(|s|, i requires 0 <= i < |s| => s[|s| - 1 - i])
  }

  /** WHERE created_at < before, or else > after. */
  function Window(messages: set<Row>, before: Option<int>, after: Option<int>): set<Row> {
    if before.Some? then Below(messages, before)
    else set r | r in messages && (after.Some? ==> r.createdAt > after.value)
  }

  method ReverseInOrder(rows: seq<Row>) returns (r: seq<Row>)
    ensures r == Reversed(rows)
  {
    r := [];
    for i := 0 to |rows|
      invariant r == Reversed(rows[..i])
    {
      r := [rows[i]] + r;
    }
    assert rows[..|rows|] == rows;
  }

  /** The query asks for one row more than a page holds; if it comes it is popped. */
  method PopExtra(found: seq<Row>, limit: nat) returns (rows: seq<Row>, hasMore: bool)
    requires |found| <= limit + 1
    ensures rows == Take(found, limit) && hasMore == (|found| > limit)
  {
    rows := found;
    hasMore := |rows| > limit;
    if hasMore {
      rows := rows[..|rows| - 1];
    }
  }

  lemma TakeTwice(all: seq<Row>, limit: nat)
    ensures Take(Take(all, limit + 1), limit) == Take(all, limit)
    ensures |Take(all, limit + 1)| > limit <==> |all| > limit
    ensures |Take(all, limit + 1)| <= limit + 1
  {
  }

  /** Older than `before`; newer than `after` when there is no `before`. */
  ghost predicate AskedFor(r: Row, before: Option<int>, after: Option<int>) {
    match before
    case Some(time) => r.createdAt < time
    case None => after != None ==> after.value < r.createdAt
  }

  /** `getMessages`: the newest messages of the window, in chronological order. A limit of
      0 is taken for a missing one. */
  method GetMessages(messages: set<Row>, before: Option<int>, after: Option<int>, limit: nat)
    returns (page: seq<Row>, hasMore: bool)
    requires Distinct(messages)
    ensures var take, sel := Limit(limit), Window(messages, before, after);
      && page == Reversed(Take(Desc(sel), take))
      && hasMore == (|sel| > take)
    ensures forall i, j | 0 <= i < j < |page| :: page[i].createdAt < page[j].createdAt
    ensures forall r | r in page :: r in messages && AskedFor(r, before, after)
    ensures forall r, q | r in messages && AskedFor(r, before, after) && r !in page && q in page :: r.createdAt < q.createdAt
    ensures |page| <= if limit == 0 then 50 else limit
    ensures hasMore ==> |page| == if limit == 0 then 50 else limit
    ensures hasMore <==> exists r :: r in messages && AskedFor(r, before, after) && r !in page
  {
    var take := if limit == 0 then 50 else limit;
    var all := Desc(Window(messages, before, after));
    var found := Take(all, take + 1);
    TakeTwice(all, take);
    page, hasMore := PopExtra(found, take);
    ghost var items := page;
    page := ReverseInOrder(page);
    PageMeaning(Window(messages, before, after), take, items);
    SameRows(items);
    assert forall r :: r in Window(messages, before, after) <==> r in messages && AskedFor(r, before, after);
    assert |all| == |Window(messages, before, after)| by { DescLists(Window(messages, before, after)); }
  }

  lemma SameRows(items: seq<Row>)
    ensures forall r :: r in Reversed(items) <==> r in items
  {
    forall r | r in items ensures r in Reversed(items) {
      var i: nat :| i < |items| && items[i] == r;
      assert Reversed(items)[|items| - 1 - i] == r;
    }
  }

  function Limit(limit: nat): (n: nat)
    ensures n > 0
  {
    if limit == 0 then 50 else limit
  }

  /** The client scrolls back: the pages `getMessages` answers, each asked for with the time
      stamp of the oldest message so far, the older page put in front. */
  function ScrollBack(messages: set<Row>, before: Option<int>, limit: nat): seq<Row>
    requires Distinct(messages)
    decreases |Below(messages, before)|
  {
    var rows := NewestPage(messages, before, Limit(limit));
    if !rows.hasMore then Reversed(rows.items)
    else
      FullPage(messages, before, Limit(limit), rows);
      OldestIsLast(rows.items);
      var oldest := Reversed(rows.items)[0];
      CursorLeadsOn(messages, before, Limit(limit), rows, oldest);
      ScrollBack(messages, Some(oldest.createdAt), limit) + Reversed(rows.items)
  }

  lemma OldestIsLast(items: seq<Row>)
    requires items != []
    ensures Reversed(items)[0] == items[|items| - 1]
  {
  }

  lemma ReversedConcat(a: seq<Row>, b: seq<Row>)
    ensures Reversed(a + b) == Reversed(b) + Reversed(a)
  {
  }

  /** Scrolling back is the walk turned round: it ends, and shows every message below the
      bound once, in chronological order. */
  lemma {:induction false} ScrollBackIsTheWalk(messages: set<Row>, before: Option<int>, limit: nat)
    requires Distinct(messages)
    ensures ScrollBack(messages, before, limit) == Reversed(Walk(messages, before, Limit(limit)))
    decreases |Below(messages, before)|
  {
    var rows := NewestPage(messages, before, Limit(limit));
    if rows.hasMore {
      FullPage(messages, before, Limit(limit), rows);
      var last := rows.items[|rows.items| - 1];
      OldestIsLast(rows.items);
      CursorLeadsOn(messages, before, Limit(limit), rows, last);
      ScrollBackIsTheWalk(messages, Some(last.createdAt), limit);
      ReversedConcat(rows.items, Walk(messages, Some(last.createdAt), Limit(limit)));
    }
  }

  /** The page the method answers is the one the client's scrolling uses. */
  lemma ScrollPageIsGetMessages(messages: set<Row>, before: Option<int>, limit: nat)
    requires Distinct(messages)
    ensures var rows, sel := NewestPage(messages, before, Limit(limit)), Window(messages, before, None);
      && Reversed(rows.items) == Reversed(Take(Desc(sel), Limit(limit)))
      && rows.hasMore == (|sel| > Limit(limit))
  {
    assert Window(messages, before, None) == Below(messages, before);
    PageIsAPrefix(Desc(Below(messages, before)), Limit(limit));
    DescLists(Below(messages, before));
  }

  // ---------------------------------------------------------------- feed and comments

  predicate DistinctIds(table: set<Row>) {
    forall a, b | a in table && b in table :: a.id == b.id ==> a == b
  }

  /** The cursor is the id of a row; one that is not found in the table sets no bound. */
  function CursorBound(table: set<Row>, cursor: Option<Id>): Option<int>
    requires DistinctIds(table)
  {
    if cursor.Some? && exists r | r in table :: r.id == cursor.value
    then var r :| r in table && r.id == cursor.value; Some(r.createdAt)
    else None
  }

  lemma CursorOfRow(table: set<Row>, r: Row)
    requires DistinctIds(table) && r in table
    ensures CursorBound(table, Some(r.id)) == Some(r.createdAt)
  {
  }

  /** Older than the row of the table that the cursor names, if it names one. */
  ghost predicate Behind(r: Row, table: set<Row>, cursor: Option<Id>) {
    forall c | c in table && cursor == Some(c.id) :: r.createdAt < c.createdAt
  }

  lemma BelowIsBehind(table: set<Row>, visible: set<Row>, cursor: Option<Id>, r: Row)
    requires DistinctIds(table)
    ensures r in Below(visible, CursorBound(table, cursor)) <==> r in visible && Behind(r, table, cursor)
  {
  }

  /** `getFeed`, and `findByPost` in its default order: of the rows the reader may see. */
  method GetFeed(table: set<Row>, visible: set<Row>, cursor: Option<Id>, limit: nat)
    returns (posts: seq<Row>, next: Option<Id>, hasMore: bool)
    requires DistinctIds(table) && visible <= table && Distinct(visible)
    ensures Page(posts, hasMore) == NewestPage(visible, CursorBound(table, cursor), limit)
    ensures next == if posts == [] then None else Some(posts[|posts| - 1].id)
    ensures forall i, j | 0 <= i < j < |posts| :: posts[i].createdAt > posts[j].createdAt
    ensures forall r | r in posts :: r in visible && Behind(r, table, cursor)
    ensures forall r, q | r in visible && Behind(r, table, cursor) && r !in posts && q in posts :: r.createdAt < q.createdAt
    ensures |posts| <= limit && (hasMore ==> |posts| == limit)
    ensures hasMore <==> exists r :: r in visible && Behind(r, table, cursor) && r !in posts
  {
    var bound := CursorBound(table, cursor);
    var all := Desc(Below(visible, bound));
    TakeTwice(all, limit);
    PageIsAPrefix(all, limit);
    posts, hasMore := PopExtra(Take(all, limit + 1), limit);
    PageMeaning(Below(visible, bound), limit, posts);
    forall r {
      BelowIsBehind(table, visible, cursor, r);
    }
    DescLists(Below(visible, bound));
    next := if |posts| > 0 then Some(posts[|posts| - 1].id) else None;
  }

  /** Following the returned cursor until there is no more. */
  function FeedWalk(table: set<Row>, visible: set<Row>, cursor: Option<Id>, limit: nat): seq<Row>
    requires DistinctIds(table) && visible <= table && Distinct(visible) && limit > 0
    decreases |Below(visible, CursorBound(table, cursor))|
  {
    var bound := CursorBound(table, cursor);
    var page := NewestPage(visible, bound, limit);
    if !page.hasMore then page.items
    else
      PageIsAPrefix(Desc(Below(visible, bound)), limit);
      var last := page.items[|page.items| - 1];
      CursorLeadsOn(visible, bound, limit, page, last);
      CursorOfRow(table, last);
      page.items + FeedWalk(table, visible, Some(last.id), limit)
  }

  /** Walking by ids is walking by time stamps. */
  lemma {:induction false} FeedWalkIsTheWalk(table: set<Row>, visible: set<Row>, cursor: Option<Id>, limit: nat)
    requires DistinctIds(table) && visible <= table && Distinct(visible) && limit > 0
    ensures FeedWalk(table, visible, cursor, limit) == Walk(visible, CursorBound(table, cursor), limit)
    decreases |Below(visible, CursorBound(table, cursor))|
  {
    var bound := CursorBound(table, cursor);
    var page := NewestPage(visible, bound, limit);
    if page.hasMore {
      FullPage(visible, bound, limit, page);
      var last := page.items[|page.items| - 1];
      CursorLeadsOn(visible, bound, limit, page, last);
      CursorOfRow(table, last);
      FeedWalkIsTheWalk(table, visible, Some(last.id), limit);
    }
  }

  /** From the first page on, the feed yields every visible row once, newest first. */
  lemma FeedWalkIsComplete(table: set<Row>, visible: set<Row>, limit: nat)
    requires DistinctIds(table) && visible <= table && Distinct(visible) && limit > 0
    ensures Lists(FeedWalk(table, visible, None, limit), visible)
  {
    FeedWalkIsTheWalk(table, visible, None, limit);
    WalkIsComplete(visible, None, limit);
    assert Below(visible, None) == visible;
  }

  /** With a limit of 0 the feed never ends: no row, hence no cursor, and always more. */
  lemma ZeroLimitMakesNoProgress(visible: set<Row>)
    requires Distinct(visible)
    ensures NewestPage(visible, None, 0) == Page([], visible != {})
  {
    assert Below(visible, None) == visible;
    PageIsAPrefix(Desc(visible), 0);
    DescLists(visible);
  }

  /** `findByPost` in its OLDEST order turns the order round but still asks for the rows
      *below* the cursor. */
  function OldestPage(s: set<Row>, bound: Option<int>, limit: nat): Page
    requires Distinct(s)
  {
    PageOf(Reversed(Desc(Below(s, bound))), limit)
  }

  /** So the second page is the first one again without its last row, and claims to be the
      end: what lay beyond the first page is never shown. */
  lemma OldestNeverAdvances(s: set<Row>, limit: nat, first: Page, last: Row)
    requires Distinct(s) && first == OldestPage(s, None, limit)
    requires first.items != [] && last == first.items[|first.items| - 1]
    ensures OldestPage(s, Some(last.createdAt), limit) == Page(first.items[..|first.items| - 1], false)
  {
    assert Below(s, None) == s;
    DescLists(s);
    AfterOldest(s, Desc(s), limit, first, last);
  }

  lemma AfterOldest(s: set<Row>, all: seq<Row>, limit: nat, first: Page, last: Row)
    requires Distinct(s) && Lists(all, s) && first == PageOf(Reversed(all), limit)
    requires first.items != [] && last == first.items[|first.items| - 1]
    ensures OldestPage(s, Some(last.createdAt), limit) == Page(first.items[..|first.items| - 1], false)
  {
    var n := |first.items|;
    SecondOldest(all, limit, first);
    assert Desc(Below(s, Some(last.createdAt))) == all[|all| - n + 1..] by {
      OlderThanTheLast(s, all, n, last);
    }
  }

  lemma SecondOldest(all: seq<Row>, limit: nat, first: Page)
    requires first == PageOf(Reversed(all), limit) && first.items != []
    ensures |first.items| <= |all| && first.items == Reversed(all)[..|first.items|]
    ensures PageOf(Reversed(all[|all| - |first.items| + 1..]), limit) == Page(first.items[..|first.items| - 1], false)
  {
    PageIsAPrefix(Reversed(all), limit);
    ReversedTail(all, |all| - |first.items| + 1);
    PageIsAPrefix(Reversed(all[|all| - |first.items| + 1..]), limit);
  }

  /** What lies below the n-th oldest row. */
  lemma OlderThanTheLast(s: set<Row>, all: seq<Row>, n: nat, last: Row)
    requires Distinct(s) && Lists(all, s) && 0 < n <= |all| && last == Reversed(all)[n - 1]
    ensures Desc(Below(s, Some(last.createdAt))) == all[|all| - n + 1..]
  {
    var k := |all| - n + 1;
    assert last == all[k - 1];
    RestLists(all, s, k);
    TheOneListing(all[k..], Below(s, Some(last.createdAt)));
  }

  lemma ReversedTail(all: seq<Row>, k: nat)
    requires k <= |all|
    ensures Reversed(all[k..]) == Reversed(all)[..|all| - k]
  {
  }

  /** The walk in OLDEST order; its second page always claims to be the last. */
  function OldestWalk(s: set<Row>, limit: nat): seq<Row>
    requires Distinct(s) && limit > 0
  {
    var first := OldestPage(s, None, limit);
    if !first.hasMore then first.items
    else
      PageIsAPrefix(Reversed(Desc(Below(s, None))), limit);
      first.items + OldestPage(s, Some(first.items[|first.items| - 1].createdAt), limit).items
  }

  lemma AppendPart(items: seq<Row>, n: nat)
    requires n <= |items|
    ensures forall r :: r in items + items[..n] <==> r in items
  {
  }

  lemma OldestWalkShows(s: set<Row>, limit: nat, first: Page)
    requires Distinct(s) && limit > 0 && first == OldestPage(s, None, limit)
    ensures first.items == Take(Reversed(Desc(s)), limit)
    ensures forall r :: r in OldestWalk(s, limit) <==> r in first.items
  {
    assert Below(s, None) == s;
    PageIsAPrefix(Reversed(Desc(s)), limit);
    if first.hasMore {
      OldestNeverAdvances(s, limit, first, first.items[|first.items| - 1]);
      AppendPart(first.items, |first.items| - 1);
    }
  }

  /** It shows every row exactly when they all fit on one page. */
  lemma OldestWalkIsCompleteExactlyWhen(s: set<Row>, limit: nat)
    requires Distinct(s) && limit > 0
    ensures (forall r :: r in s ==> r in OldestWalk(s, limit)) <==> |s| <= limit
  {
    OldestWalkShows(s, limit, OldestPage(s, None, limit));
    DescLists(s);
    TakeOfOldest(Desc(s), s, limit);
  }

  lemma TakeOfOldest(all: seq<Row>, s: set<Row>, limit: nat)
    requires Lists(all, s) && |all| == |s|
    ensures (forall r :: r in s ==> r in Take(Reversed(all), limit)) <==> |s| <= limit
  {
    if |s| <= limit {
      forall r | r in s ensures r in Take(Reversed(all), limit) {
        var i: nat :| i < |all| && all[i] == r;
        assert Reversed(all)[|all| - 1 - i] == r;
      }
    } else {
      var next := all[|all| - 1 - limit];
      assert next in all && next in s;
      forall r | r in Take(Reversed(all), limit) ensures r != next {
        var i: nat :| i < limit && Take(Reversed(all), limit)[i] == r;
        assert r == all[|all| - 1 - i];
      }
    }
  }
}
