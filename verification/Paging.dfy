/** Newest-first enumeration of a finite set of keys, pages strictly below a cursor, and what
    a client that walks page by page gets to see. */
module Paging {
  import opened Model
  import opened Counting

  predicate Descending(q: seq<Key>) {
    forall i, j | 0 <= i < j < |q| :: Before(q[j], q[i])
  }

  ghost predicate IsNewest(top: Key, keys: set<Key>) {
    top in keys && forall k | k in keys && k != top :: Before(k, top)
  }

  lemma {:induction false} NewestExists(keys: set<Key>)
    requires keys != {}
    ensures exists top :: IsNewest(top, keys)
    decreases keys
  {
    var k :| k in keys;
    var rest := keys - {k};
    assert keys == rest + {k};
    if rest == {} {
      assert IsNewest(k, keys);
    } else {
      NewestExists(rest);
      var next :| IsNewest(next, rest);
      if Before(next, k) {
        assert IsNewest(k, keys);
      } else {
        assert IsNewest(next, keys);
      }
    }
  }

  ghost function Newest(keys: set<Key>): (top: Key)
    requires keys != {}
    ensures IsNewest(top, keys)
  {
    NewestExists(keys);
    var top :| IsNewest(top, keys);
    top
  }

  /** All keys, newest first. */
  ghost function Desc(keys: set<Key>): seq<Key>
    decreases |keys|
  {
    if keys == {} then []
    else [Newest(keys)] + Desc(keys - {Newest(keys)})
  }

  lemma {:induction false} DescSorted(keys: set<Key>)
    ensures Descending(Desc(keys))
    ensures forall k :: k in Desc(keys) <==> k in keys
    ensures |Desc(keys)| == |keys|
    decreases |keys|
  {
    if keys != {} {
      var top := Newest(keys);
      DescSorted(keys - {top});
      var rest := Desc(keys - {top});
      assert Desc(keys) == [top] + rest;
      forall i, j | 0 <= i < j < |Desc(keys)| ensures Before(Desc(keys)[j], Desc(keys)[i]) {
        assert Desc(keys)[j] == rest[j - 1];
        assert rest[j - 1] in keys - {top};
        if i > 0 { assert Desc(keys)[i] == rest[i - 1]; }
      }
    }
  }

  ghost predicate Lists(q: seq<Key>, keys: set<Key>) {
    forall k :: k in q <==> k in keys
  }

  lemma NewestFirst(q: seq<Key>, keys: set<Key>)
    requires Descending(q) && Lists(q, keys) && |q| > 0
    ensures q[0] in keys && q[0] == Newest(keys)
  {
    assert q[0] in keys;
    var top := Newest(keys);
    assert top in q;
    var i :| 0 <= i < |q| && q[i] == top;
    assert q[0] != top ==> Before(q[0], q[i]);
    assert i > 0 ==> Before(q[i], q[0]);
  }

  lemma ListsRest(q: seq<Key>, keys: set<Key>)
    requires Descending(q) && Lists(q, keys) && |q| > 0
    ensures Descending(q[1..]) && Lists(q[1..], keys - {q[0]})
  {
    forall k ensures k in q[1..] <==> k in keys - {q[0]} {
      if k in q[1..] {
        var j :| 1 <= j < |q| && q[j] == k;
        assert Before(q[j], q[0]);
      }
    }
  }

  /** Sorting is determined by the elements. */
  lemma {:induction false} DescUnique(q: seq<Key>, keys: set<Key>)
    requires Descending(q)
    requires forall k :: k in q <==> k in keys
    ensures q == Desc(keys)
    decreases |q|
  {
    hide Descending, IsNewest;
    if |q| == 0 {
      assert forall k :: k !in keys;
      assert keys == {};
    } else {
      assert Lists(q, keys);
      NewestFirst(q, keys);
      ListsRest(q, keys);
      DescUnique(q[1..], keys - {q[0]});
    }
  }

  predicate Under(k: Key, cursor: Option<Key>) {
    cursor.None? || Before(k, cursor.value)
  }

  function Below(keys: set<Key>, cursor: Option<Key>): set<Key> {
    set k | k in keys && Under(k, cursor)
  }

  function Take<T>(q: seq<T>, limit: nat): seq<T> {
    if |q| <= limit then q else q[..limit]
  }

  /** The `limit` newest keys strictly below the cursor. */
  ghost function Page(keys: set<Key>, cursor: Option<Key>, limit: nat): seq<Key> {
    Take(Desc(Below(keys, cursor)), limit)
  }

  /** What a query ordered newest first with a limit promises: sorted, within bounds, and it
      leaves out only keys older than a full page. */
  ghost predicate IsPage(keys: set<Key>, cursor: Option<Key>, limit: nat, q: seq<Key>) {
    && Descending(q)
    && (forall k | k in q :: k in Below(keys, cursor))
    && |q| <= limit
    && (forall k | k in Below(keys, cursor) && k !in q :: |q| == limit && forall j | j in q :: Before(k, j))
  }

  lemma PageIsPage(keys: set<Key>, cursor: Option<Key>, limit: nat)
    ensures IsPage(keys, cursor, limit, Page(keys, cursor, limit))
  {
    var d := Desc(Below(keys, cursor));
    DescSorted(Below(keys, cursor));
    forall k | k in Below(keys, cursor) && k !in Take(d, limit)
      ensures |d| > limit && forall j | j in Take(d, limit) :: Before(k, j)
    {
      assert k in d;
    }
  }

  lemma JoinDescending(a: seq<Key>, b: seq<Key>)
    requires Descending(a) && Descending(b)
    requires forall x, y | x in a && y in b :: Before(y, x)
    ensures Descending(a + b)
  {
    forall i, j | 0 <= i < j < |a + b| ensures Before((a + b)[j], (a + b)[i]) {
      if i < |a| <= j {
        assert a[i] in a && b[j - |a|] in b;
      }
    }
  }

  /** There is only one such page. */
  lemma PageUnique(keys: set<Key>, cursor: Option<Key>, limit: nat, q: seq<Key>)
    requires IsPage(keys, cursor, limit, q)
    ensures q == Page(keys, cursor, limit)
  {
    var rest := set k | k in Below(keys, cursor) && k !in q;
    DescSorted(rest);
    var all := q + Desc(rest);
    JoinDescending(q, Desc(rest));
    DescUnique(all, Below(keys, cursor));
    if rest == {} {
      assert Desc(rest) == [] && all == q;
    } else {
      var k :| k in rest;
      assert |q| == limit;
      assert all[..limit] == q;
    }
  }

  /** Below a key of the list comes the rest of the list. */
  lemma DescBelow(keys: set<Key>, j: nat)
    requires j < |Desc(keys)|
    ensures Desc(Below(keys, Some(Desc(keys)[j]))) == Desc(keys)[j + 1..]
  {
    DescSorted(keys);
    SuffixBelow(keys, Desc(keys), j);
    DescUnique(Desc(keys)[j + 1..], Below(keys, Some(Desc(keys)[j])));
  }

  lemma SuffixBelow(keys: set<Key>, d: seq<Key>, j: nat)
    requires Descending(d) && j < |d|
    requires forall k :: k in d <==> k in keys
    ensures Descending(d[j + 1..])
    ensures forall k :: k in d[j + 1..] <==> k in Below(keys, Some(d[j]))
  {
    forall k | k in Below(keys, Some(d[j])) ensures k in d[j + 1..] {
      var i :| 0 <= i < |d| && d[i] == k;
      assert d[j + 1..][i - j - 1] == k;
    }
    forall k | k in d[j + 1..] ensures k in Below(keys, Some(d[j])) {
      var i :| 0 <= i < |d| - j - 1 && d[j + 1..][i] == k;
      assert d[j + 1 + i] == k && k in d;
    }
  }

  // ----- Walking page by page --------------------------------------------------------------

  /** The cursor handed back with a page: its last post, nothing for an empty page. */
  function NextCursor(page: seq<Key>): Option<Key> {
    if |page| == 0 then None else Some(page[|page| - 1])
  }

  function CursorAt(pages: seq<seq<Key>>, i: nat): Option<Key>
    requires i <= |pages|
  {
    if i == 0 then None else NextCursor(pages[i - 1])
  }

  function Concat(pages: seq<seq<Key>>): seq<Key> {
    if |pages| == 0 then [] else Concat(pages[..|pages| - 1]) + pages[|pages| - 1]
  }

  /** Every page but the last is non-empty; the walk stops at the first empty one. */
  predicate Stops(pages: seq<seq<Key>>) {
    && |pages| > 0
    && |pages[|pages| - 1]| == 0
    && forall i | 0 <= i < |pages| - 1 :: |pages[i]| > 0
  }

  lemma {:induction false} InConcat(pages: seq<seq<Key>>, i: nat, k: Key)
    requires i < |pages| && k in pages[i]
    ensures k in Concat(pages)
    decreases |pages|
  {
    if i < |pages| - 1 { InConcat(pages[..|pages| - 1], i, k); }
  }

  // ----- An author's posts, with posts coming and going between the pages ------------------

  /** live[i] is the author's live posts when page i is read. */
  ghost predicate AuthorWalk(live: seq<set<Key>>, limit: nat, pages: seq<seq<Key>>) {
    && |live| == |pages|
    && forall i | 0 <= i < |pages| :: pages[i] == Page(live[i], CursorAt(pages, i), limit)
  }

  ghost predicate AlwaysLive(live: seq<set<Key>>, k: Key) {
    forall i | 0 <= i < |live| :: k in live[i]
  }

  lemma DescendingNone()
    ensures Descending([])
  {
  }

  lemma UnderNone()
    ensures forall k: Key :: Under(k, None)
  {
  }

  lemma {:induction false} AuthorWalkPrefix(live: seq<set<Key>>, limit: nat, pages: seq<seq<Key>>, n: nat)
    requires limit >= 1
    requires AuthorWalk(live, limit, pages)
    requires n <= |pages| && forall i | 0 <= i < n :: |pages[i]| > 0
    ensures Descending(Concat(pages[..n]))
    ensures forall k | k in Concat(pages[..n]) :: !Under(k, CursorAt(pages, n))
    ensures n == 0 ==> Concat(pages[..n]) == []
    ensures forall k | AlwaysLive(live, k) && !Under(k, CursorAt(pages, n)) :: k in Concat(pages[..n])
    decreases n
  {
    hide Page, Under, Descending;
    UnderNone();
    DescendingNone();
    if n > 0 {
      AuthorWalkPrefix(live, limit, pages, n - 1);
      assert pages[..n][..n - 1] == pages[..n - 1];
      AuthorStep(live[n - 1], limit, Concat(pages[..n - 1]), CursorAt(pages, n - 1), pages[n - 1]);
    }
  }

  /** One more page: the keys read so far are those at or above the cursor. */
  lemma AuthorStep(live: set<Key>, limit: nat, done: seq<Key>, cursor: Option<Key>, page: seq<Key>)
    requires limit >= 1
    requires page == Page(live, cursor, limit) && |page| > 0
    requires Descending(done)
    requires forall k | k in done :: !Under(k, cursor)
    ensures Descending(done + page)
    ensures forall k | k in done + page :: !Under(k, NextCursor(page))
    ensures forall k | k in live && Under(k, cursor) && !Under(k, NextCursor(page)) :: k in page
    ensures forall k | !Under(k, cursor) :: !Under(k, NextCursor(page))
  {
    PageIsPage(live, cursor, limit);
    var last := page[|page| - 1];
    assert last in page;
    JoinDescending(done, page);
    forall k | k in live && Under(k, cursor) && !Under(k, NextCursor(page)) ensures k in page {
      assert k in Below(live, cursor);
    }
  }

  lemma PageEmpty(keys: set<Key>, cursor: Option<Key>, limit: nat)
    requires limit >= 1
    ensures |Page(keys, cursor, limit)| == 0 <==> Below(keys, cursor) == {}
  {
    DescSorted(Below(keys, cursor));
  }

  lemma PageLive(keys: set<Key>, cursor: Option<Key>, limit: nat)
    ensures forall k | k in Page(keys, cursor, limit) :: k in keys && Under(k, cursor)
  {
    PageIsPage(keys, cursor, limit);
  }

  lemma NothingBelow(keys: set<Key>, cursor: Option<Key>, limit: nat)
    requires limit >= 1 && Page(keys, cursor, limit) == []
    ensures forall k | k in keys :: !Under(k, cursor)
  {
    PageEmpty(keys, cursor, limit);
    forall k | k in keys ensures !Under(k, cursor) {
      assert k !in Below(keys, cursor);
    }
  }

  /** However posts are added and soft-deleted between pages: no post is returned twice, the
      whole walk is newest first, and a post that stays live throughout is returned. */
  lemma AuthorWalkUnderChange(live: seq<set<Key>>, limit: nat, pages: seq<seq<Key>>)
    requires limit >= 1
    requires AuthorWalk(live, limit, pages) && Stops(pages)
    ensures Descending(Concat(pages))
    ensures forall k | AlwaysLive(live, k) :: k in Concat(pages)
  {
    hide Page, Descending, Under;
    var n := |pages| - 1;
    AuthorWalkPrefix(live, limit, pages, n);
    assert Concat(pages) == Concat(pages[..n]);
    NothingBelow(live[n], CursorAt(pages, n), limit);
    forall k | AlwaysLive(live, k) ensures k in Concat(pages) {
      assert k in live[n];
    }
  }

  /** Nothing is returned that was not live when its page was read. */
  lemma AuthorWalkLive(live: seq<set<Key>>, limit: nat, pages: seq<seq<Key>>, i: nat, k: Key)
    requires AuthorWalk(live, limit, pages) && i < |pages| && k in pages[i]
    ensures k in live[i]
  {
    PageLive(live[i], CursorAt(pages, i), limit);
  }

  /** Reading one page uses up its keys and no others. */
  lemma BelowNext(live: set<Key>, cursor: Option<Key>, limit: nat, page: seq<Key>)
    requires limit >= 1 && page == Page(live, cursor, limit) && |page| > 0
    ensures var n := |Below(live, cursor)|;
      |Below(live, NextCursor(page))| == if n <= limit then 0 else n - limit
  {
    var below := Below(live, cursor);
    var last := page[|page| - 1];
    PageLive(live, cursor, limit);
    assert last in page;
    assert Below(below, Some(last)) == Below(live, Some(last));
    BelowCount(below, |page| - 1);
  }

  lemma BelowCount(keys: set<Key>, j: nat)
    requires j < |Desc(keys)|
    ensures |keys| == |Desc(keys)|
    ensures |Below(keys, Some(Desc(keys)[j]))| == |keys| - j - 1
  {
    DescSorted(keys);
    DescBelow(keys, j);
    DescSorted(Below(keys, Some(Desc(keys)[j])));
  }

  ghost predicate StillWalk(live: set<Key>, limit: nat, pages: seq<seq<Key>>) {
    forall i | 0 <= i < |pages| :: pages[i] == Page(live, CursorAt(pages, i), limit)
  }

  ghost function Left(live: set<Key>, cursor: Option<Key>): nat {
    |Below(live, cursor)|
  }

  lemma StillStep(live: set<Key>, limit: nat, cursor: Option<Key>, page: seq<Key>)
    requires limit >= 1 && page == Page(live, cursor, limit)
    ensures page == [] <==> Left(live, cursor) == 0
    ensures page != [] ==> Calls(Left(live, cursor), limit) == 1 + Calls(Left(live, NextCursor(page)), limit)
  {
    PageEmpty(live, cursor, limit);
    if page != [] { BelowNext(live, cursor, limit, page); }
  }

  /** The number of pages still to come, from the number of keys below the cursor. */
  lemma {:induction false} PagesLeft(live: set<Key>, limit: nat, pages: seq<seq<Key>>, n: nat)
    requires limit >= 1
    requires StillWalk(live, limit, pages) && Stops(pages) && n < |pages|
    ensures |pages| - n == Calls(Left(live, CursorAt(pages, n)), limit)
    decreases |pages| - n
  {
    StillStep(live, limit, CursorAt(pages, n), pages[n]);
    if n < |pages| - 1 {
      PagesLeft(live, limit, pages, n + 1);
    }
  }

  lemma StillWalkSame(live: set<Key>, limit: nat, pages: seq<seq<Key>>)
    requires limit >= 1
    requires StillWalk(live, limit, pages) && Stops(pages)
    ensures Descending(Concat(pages))
    ensures forall k :: k in Concat(pages) <==> k in live
  {
    var lives := seq(|pages|, i => live);
    AuthorWalkUnderChange(lives, limit, pages);
    forall k | k in live ensures k in Concat(pages) {
      assert AlwaysLive(lives, k);
    }
    forall k | k in Concat(pages) ensures k in live {
      var i := FromConcat(pages, k);
      PageLive(live, CursorAt(pages, i), limit);
    }
  }

  /** With nothing changing, the walk is the sorted list of the author's live posts, read in
      one call a page and one more that comes back empty with no cursor. */
  lemma AuthorWalkStill(live: set<Key>, limit: nat, pages: seq<seq<Key>>)
    requires limit >= 1
    requires StillWalk(live, limit, pages) && Stops(pages)
    ensures Concat(pages) == Desc(live)
    ensures |pages| == CeilDiv(|live|, limit) + 1
    ensures NextCursor(pages[|pages| - 1]) == None
  {
    StillWalkSame(live, limit, pages);
    DescUnique(Concat(pages), live);
    PagesLeft(live, limit, pages, 0);
    CallsCount(|live|, limit);
    assert Below(live, None) == live;
  }

  lemma {:induction false} FromConcat(pages: seq<seq<Key>>, k: Key) returns (i: nat)
    requires k in Concat(pages)
    ensures i < |pages| && k in pages[i]
    decreases |pages|
  {
    var n := |pages| - 1;
    if k in pages[n] {
      i := n;
    } else {
      i := FromConcat(pages[..n], k);
    }
  }

  // ----- A feed in which some posts are deleted --------------------------------------------

  /** A reply holds the live posts of a page, in whatever order the post layer gives them. */
  ghost predicate IsReply(feed: set<Key>, live: set<Key>, cursor: Option<Key>, limit: nat, reply: seq<Key>) {
    forall k :: k in reply <==> k in Page(feed, cursor, limit) && k in live
  }

  ghost predicate FeedWalk(feed: set<Key>, live: set<Key>, limit: nat, replies: seq<seq<Key>>) {
    forall i | 0 <= i < |replies| :: IsReply(feed, live, CursorAt(replies, i), limit, replies[i])
  }

  /** `limit` consecutive deleted members with a live one somewhere below them. */
  ghost predicate BlindAt(d: seq<Key>, live: set<Key>, limit: nat, at: nat) {
    && at + limit <= |d|
    && (forall j | at <= j < at + limit :: d[j] !in live)
    && exists j | at + limit <= j < |d| :: d[j] in live
  }

  ghost predicate BlindSpot(feed: set<Key>, live: set<Key>, limit: nat) {
    exists at :: BlindAt(Desc(feed), live, limit, at)
  }

  /** Where in the list the page below a cursor begins. */
  ghost predicate StartsAt(d: seq<Key>, cursor: Option<Key>, start: nat) {
    && start <= |d|
    && match cursor
       case None => start == 0
       case Some(k) => start > 0 && d[start - 1] == k
  }

  lemma PageSlice(feed: set<Key>, cursor: Option<Key>, start: nat, limit: nat)
    requires StartsAt(Desc(feed), cursor, start)
    ensures Page(feed, cursor, limit) == Take(Desc(feed)[start..], limit)
  {
    if cursor == None {
      assert Below(feed, cursor) == feed;
    } else {
      DescBelow(feed, start - 1);
    }
  }

  /** Which list positions a reply covers. */
  ghost predicate Covers(d: seq<Key>, live: set<Key>, limit: nat, start: nat, reply: seq<Key>) {
    forall j | 0 <= j < |d| :: d[j] in reply <==> start <= j < start + limit && d[j] in live
  }

  lemma ReplyCovers(feed: set<Key>, live: set<Key>, cursor: Option<Key>, start: nat, limit: nat, reply: seq<Key>)
    requires StartsAt(Desc(feed), cursor, start)
    requires IsReply(feed, live, cursor, limit, reply)
    ensures Covers(Desc(feed), live, limit, start, reply)
    ensures |reply| > 0 ==> reply[|reply| - 1] in Desc(feed)
  {
    PageSlice(feed, cursor, start, limit);
    DescSorted(feed);
    var d, page := Desc(feed), Page(feed, cursor, limit);
    assert forall m | 0 <= m < |page| :: page[m] == d[start + m];
    forall j | 0 <= j < |d| ensures d[j] in page <==> start <= j < start + limit {
      if start <= j < start + limit { assert page[j - start] == d[j]; }
    }
    if |reply| > 0 {
      assert reply[|reply| - 1] in page;
    }
  }

  ghost predicate AllReturned(d: seq<Key>, live: set<Key>, start: nat, done: seq<Key>) {
    forall j | 0 <= j < start && j < |d| && d[j] in live :: d[j] in done
  }

  lemma NoneReturned(d: seq<Key>, live: set<Key>)
    ensures AllReturned(d, live, 0, [])
  {
  }

  /** After n non-empty replies the cursor stands n or more positions down the list, and
      every live key above it has been returned. */
  lemma {:induction false} FeedPrefix(feed: set<Key>, d: seq<Key>, live: set<Key>, limit: nat, replies: seq<seq<Key>>, n: nat)
    returns (start: nat)
    requires d == Desc(feed)
    requires FeedWalk(feed, live, limit, replies)
    requires n <= |replies| && forall i | 0 <= i < n :: |replies[i]| > 0
    ensures StartsAt(d, CursorAt(replies, n), start) && n <= start
    ensures AllReturned(d, live, start, Concat(replies[..n]))
    decreases n
  {
    hide Covers, IsReply, AllReturned;
    if n == 0 {
      start := 0;
      NoneReturned(d, live);
    } else {
      var before := FeedPrefix(feed, d, live, limit, replies, n - 1);
      ConcatNext(replies, n - 1);
      ReplyCovers(feed, live, CursorAt(replies, n - 1), before, limit, replies[n - 1]);
      start := StepDown(d, live, limit, before, Concat(replies[..n - 1]), replies[n - 1]);
    }
  }

  lemma ConcatNext(pages: seq<seq<Key>>, n: nat)
    requires n < |pages|
    ensures Concat(pages[..n + 1]) == Concat(pages[..n]) + pages[n]
  {
    assert pages[..n + 1][..n] == pages[..n];
  }

  lemma StepDown(d: seq<Key>, live: set<Key>, limit: nat, start: nat, done: seq<Key>, reply: seq<Key>) returns (next: nat)
    requires Covers(d, live, limit, start, reply)
    requires |reply| > 0 && reply[|reply| - 1] in d
    requires AllReturned(d, live, start, done)
    ensures StartsAt(d, NextCursor(reply), next)
    ensures start < next <= start + limit && d[next - 1] in live
    ensures AllReturned(d, live, next, done + reply)
  {
    var last := reply[|reply| - 1];
    assert last in reply;
    var i :| 0 <= i < |d| && d[i] == last;
    next := i + 1;
  }

  lemma StepOver(d: seq<Key>, live: set<Key>, limit: nat, start: nat, done: seq<Key>, reply: seq<Key>, at: nat)
    returns (next: nat)
    requires Covers(d, live, limit, start, reply)
    requires |reply| > 0 && reply[|reply| - 1] in d
    requires BlindAt(d, live, limit, at) && start <= at
    requires forall j | at <= j < |d| :: d[j] !in done
    ensures StartsAt(d, NextCursor(reply), next) && next <= at
    ensures forall j | at <= j < |d| :: d[j] !in done + reply
  {
    var last := reply[|reply| - 1];
    assert last in reply;
    var i :| 0 <= i < |d| && d[i] == last;
    next := i + 1;
  }

  /** No page gets past a blind spot. */
  lemma {:induction false} NeverPast(feed: set<Key>, live: set<Key>, limit: nat, replies: seq<seq<Key>>, n: nat, at: nat)
    returns (start: nat)
    requires FeedWalk(feed, live, limit, replies)
    requires n <= |replies| && forall i | 0 <= i < n :: |replies[i]| > 0
    requires BlindAt(Desc(feed), live, limit, at)
    ensures StartsAt(Desc(feed), CursorAt(replies, n), start) && start <= at
    ensures forall j | at <= j < |Desc(feed)| :: Desc(feed)[j] !in Concat(replies[..n])
    decreases n
  {
    hide Covers, IsReply;
    if n == 0 {
      start := 0;
    } else {
      var before := NeverPast(feed, live, limit, replies, n - 1, at);
      ReplyCovers(feed, live, CursorAt(replies, n - 1), before, limit, replies[n - 1]);
      start := StepOver(Desc(feed), live, limit, before, Concat(replies[..n - 1]), replies[n - 1], at);
      ConcatNext(replies, n - 1);
    }
  }

  /** The cursor always moves down the feed, so a walk is never longer than the feed and its
      one empty reply. */
  lemma FeedWalkEnds(feed: set<Key>, live: set<Key>, limit: nat, replies: seq<seq<Key>>)
    requires FeedWalk(feed, live, limit, replies)
    requires forall i | 0 <= i < |replies| - 1 :: |replies[i]| > 0
    ensures |replies| <= |feed| + 1
    ensures |replies| == |feed| + 1 ==> |replies[|replies| - 1]| == 0
  {
    if |replies| > 0 {
      var n := if |replies[|replies| - 1]| == 0 then |replies| - 1 else |replies|;
      var start := FeedPrefix(feed, Desc(feed), live, limit, replies, n);
      DescSorted(feed);
    }
  }

  /** Whatever order the post layer gives each page, the walk returns every live post of the
      feed if and only if the feed has no blind spot. */
  lemma FeedWalkCoverage(feed: set<Key>, live: set<Key>, limit: nat, replies: seq<seq<Key>>)
    requires limit >= 1
    requires FeedWalk(feed, live, limit, replies) && Stops(replies)
    ensures (forall k | k in feed && k in live :: k in Concat(replies)) <==> !BlindSpot(feed, live, limit)
  {
    var n, d := |replies| - 1, Desc(feed);
    assert Concat(replies) == Concat(replies[..n]);
    DescSorted(feed);
    if BlindSpot(feed, live, limit) {
      FeedWalkMisses(feed, live, limit, replies, n);
    } else {
      FeedWalkComplete(feed, live, limit, replies, n);
      forall k | k in feed && k in live ensures k in Concat(replies) {
        assert k in d;
      }
    }
  }

  lemma FeedWalkMisses(feed: set<Key>, live: set<Key>, limit: nat, replies: seq<seq<Key>>, n: nat)
    requires FeedWalk(feed, live, limit, replies) && BlindSpot(feed, live, limit)
    requires n < |replies| && forall i | 0 <= i < n :: |replies[i]| > 0
    ensures exists k :: k in Desc(feed) && k in live && k !in Concat(replies[..n])
  {
    var at: nat :| BlindAt(Desc(feed), live, limit, at);
    var start := NeverPast(feed, live, limit, replies, n, at);
    var j :| at + limit <= j < |Desc(feed)| && Desc(feed)[j] in live;
    assert Desc(feed)[j] in Desc(feed);
  }

  lemma FeedWalkComplete(feed: set<Key>, live: set<Key>, limit: nat, replies: seq<seq<Key>>, n: nat)
    requires FeedWalk(feed, live, limit, replies) && !BlindSpot(feed, live, limit)
    requires n < |replies| && replies[n] == [] && forall i | 0 <= i < n :: |replies[i]| > 0
    ensures forall k | k in Desc(feed) && k in live :: k in Concat(replies[..n])
  {
    var d := Desc(feed);
    var start := FeedPrefix(feed, Desc(feed), live, limit, replies, n);
    ReplyCovers(feed, live, CursorAt(replies, n), start, limit, replies[n]);
    NoLiveBelow(d, live, limit, start, replies[n]);
    forall k | k in d && k in live ensures k in Concat(replies[..n]) {
      var j :| 0 <= j < |d| && d[j] == k;
      assert j < start;
    }
  }

  /** An empty reply means that nothing live is left, unless it was a page of deleted posts. */
  lemma NoLiveBelow(d: seq<Key>, live: set<Key>, limit: nat, start: nat, reply: seq<Key>)
    requires Covers(d, live, limit, start, reply) && reply == []
    requires !exists at :: BlindAt(d, live, limit, at)
    ensures forall j | start <= j < |d| :: d[j] !in live
  {
    assert forall j | start <= j < start + limit && j < |d| :: d[j] !in reply;
    if start + limit <= |d| {
      assert !BlindAt(d, live, limit, start);
    }
  }

  /** A page of one deleted post ends the walk above a live one. */
  lemma BlindWalk(older: Key, newer: Key)
    requires Before(older, newer)
    ensures var feed, live := {older, newer}, {older};
      && FeedWalk(feed, live, 1, [[]]) && Stops([[]])
      && BlindSpot(feed, live, 1) && older !in Concat([[]])
  {
    var feed, live := {older, newer}, {older};
    DescUnique([newer, older], feed);
    assert Below(feed, None) == feed;
    assert BlindAt(Desc(feed), live, 1, 0) by { assert Desc(feed)[1] in live; }
  }

  // ----- A feed that changes between the pages ---------------------------------------------

  /** feeds[i] and lives[i] are the feed and the live posts when reply i is given. */
  ghost predicate ChangingWalk(feeds: seq<set<Key>>, lives: seq<set<Key>>, limit: nat, replies: seq<seq<Key>>) {
    && |feeds| == |lives| == |replies|
    && forall i | 0 <= i < |replies| :: IsReply(feeds[i], lives[i], CursorAt(replies, i), limit, replies[i])
  }

  ghost predicate Stays(feeds: seq<set<Key>>, lives: seq<set<Key>>, k: Key) {
    forall i | 0 <= i < |feeds| && i < |lives| :: k in feeds[i] && k in lives[i]
  }

  /** Live keys from the cursor down to the next one are in the reply. */
  lemma ReplyReaches(feed: set<Key>, live: set<Key>, cursor: Option<Key>, limit: nat, reply: seq<Key>, k: Key)
    requires IsReply(feed, live, cursor, limit, reply) && |reply| > 0
    requires k in feed && k in live && Under(k, cursor) && !Under(k, NextCursor(reply))
    ensures k in reply
  {
    hide Page;
    PageIsPage(feed, cursor, limit);
    assert reply[|reply| - 1] in reply;
    assert k in Below(feed, cursor);
  }

  lemma {:induction false} ChangingSoFar(feeds: seq<set<Key>>, lives: seq<set<Key>>, limit: nat, replies: seq<seq<Key>>, n: nat, k: Key)
    requires ChangingWalk(feeds, lives, limit, replies) && Stays(feeds, lives, k)
    requires n <= |replies| && forall i | 0 <= i < n :: |replies[i]| > 0
    requires !Under(k, CursorAt(replies, n))
    ensures k in Concat(replies[..n])
    decreases n
  {
    hide IsReply, Under;
    UnderNone();
    if n > 0 {
      ConcatNext(replies, n - 1);
      if Under(k, CursorAt(replies, n - 1)) {
        ReplyReaches(feeds[n - 1], lives[n - 1], CursorAt(replies, n - 1), limit, replies[n - 1], k);
      } else {
        ChangingSoFar(feeds, lives, limit, replies, n - 1, k);
      }
    }
  }

  lemma ShortPage(feed: set<Key>, live: set<Key>, cursor: Option<Key>, limit: nat, k: Key)
    requires IsReply(feed, live, cursor, limit, []) && |Page(feed, cursor, limit)| < limit
    requires k in feed && k in live
    ensures !Under(k, cursor)
  {
    PageIsPage(feed, cursor, limit);
    assert k in Below(feed, cursor) ==> k in Page(feed, cursor, limit);
  }

  /** However the feed and the live posts change between the pages, and in whatever order each
      page comes: a walk that stops on a page of fewer than `limit` members returns every post
      that stays in the feed and live throughout. */
  lemma FeedWalkUnderChange(feeds: seq<set<Key>>, lives: seq<set<Key>>, limit: nat, replies: seq<seq<Key>>, k: Key)
    requires ChangingWalk(feeds, lives, limit, replies) && Stops(replies)
    requires |Page(feeds[|replies| - 1], CursorAt(replies, |replies| - 1), limit)| < limit
    requires Stays(feeds, lives, k)
    ensures k in Concat(replies)
  {
    hide IsReply, Page, Under;
    var n := |replies| - 1;
    ShortPage(feeds[n], lives[n], CursorAt(replies, n), limit, k);
    ChangingSoFar(feeds, lives, limit, replies, n, k);
    ConcatNext(replies, n);
    assert replies[..n + 1] == replies;
  }

  // ----- When a feed walk repeats itself ---------------------------------------------------

  predicate NoRepeats(q: seq<Key>) {
    forall i, j | 0 <= i < j < |q| :: q[i] != q[j]
  }

  /** The last key, from which the next cursor is made, is the oldest one of the reply. */
  predicate EndsOldest(reply: seq<Key>) {
    |reply| > 0 ==> forall k | k in reply :: !Before(k, reply[|reply| - 1])
  }

  lemma NoRepeatsJoin(a: seq<Key>, b: seq<Key>)
    ensures NoRepeats(a + b) <==> NoRepeats(a) && NoRepeats(b) && forall k | k in a :: k !in b
  {
    var q := a + b;
    if NoRepeats(q) {
      forall i, j | 0 <= i < j < |b| ensures b[i] != b[j] {
        assert q[|a| + i] == b[i] && q[|a| + j] == b[j];
      }
      forall i, j | 0 <= i < |a| && 0 <= j < |b| ensures a[i] != b[j] {
        assert q[i] == a[i] && q[|a| + j] == b[j];
      }
      forall i, j | 0 <= i < j < |a| ensures a[i] != a[j] {
        assert q[i] == a[i] && q[j] == a[j];
      }
    } else {
      var i, j :| 0 <= i < j < |q| && q[i] == q[j];
      assert i < |a| <= j ==> a[i] in a && b[j - |a|] in b;
    }
  }

  lemma ReplyUnder(feed: set<Key>, live: set<Key>, cursor: Option<Key>, limit: nat, reply: seq<Key>)
    requires IsReply(feed, live, cursor, limit, reply)
    ensures forall k | k in reply :: k in feed && k in live && Under(k, cursor)
  {
    hide Page, Under;
    PageLive(feed, cursor, limit);
  }

  lemma UnrepeatedStep(done: seq<Key>, cursor: Option<Key>, reply: seq<Key>)
    requires NoRepeats(done) && NoRepeats(reply) && EndsOldest(reply)
    requires forall k | k in done :: !Under(k, cursor)
    requires forall k | k in reply :: Under(k, cursor)
    ensures NoRepeats(done + reply)
    ensures |reply| > 0 ==> forall k | k in done + reply :: !Under(k, NextCursor(reply))
  {
    hide NoRepeats;
    NoRepeatsJoin(done, reply);
    if |reply| > 0 { assert reply[|reply| - 1] in reply; }
  }

  /** If every reply ends with its oldest key, what was returned stays at or above the cursor. */
  lemma {:induction false} NoRepeatsSoFar(feed: set<Key>, live: set<Key>, limit: nat, replies: seq<seq<Key>>, n: nat)
    requires FeedWalk(feed, live, limit, replies)
    requires n <= |replies| && forall i | 0 <= i < |replies| - 1 :: |replies[i]| > 0
    requires forall i | 0 <= i < n :: NoRepeats(replies[i]) && EndsOldest(replies[i])
    ensures NoRepeats(Concat(replies[..n]))
    ensures n == 0 || |replies[n - 1]| > 0 ==> forall k | k in Concat(replies[..n]) :: !Under(k, CursorAt(replies, n))
    decreases n
  {
    hide NoRepeats, EndsOldest, IsReply, Under;
    if n > 0 {
      NoRepeatsSoFar(feed, live, limit, replies, n - 1);
      ConcatNext(replies, n - 1);
      ReplyUnder(feed, live, CursorAt(replies, n - 1), limit, replies[n - 1]);
      UnrepeatedStep(Concat(replies[..n - 1]), CursorAt(replies, n - 1), replies[n - 1]);
    } else {
      assert Concat(replies[..n]) == [];
      NoRepeatsNone();
    }
  }

  lemma NoRepeatsNone()
    ensures NoRepeats([])
  {
  }

  lemma CoveredAgain(d: seq<Key>, live: set<Key>, limit: nat, start: nat, reply: seq<Key>, p: nat, next: seq<Key>, k: Key)
    requires Descending(d) && p < |d|
    requires Covers(d, live, limit, start, reply) && d[p] in reply
    requires Covers(d, live, limit, p + 1, next)
    requires k in reply && k in d && Before(k, d[p])
    ensures k in next
  {
    var q :| 0 <= q < |d| && d[q] == k;
    assert p < q;
  }

  /** A key older than the last one of its reply is returned again with the next reply. */
  lemma ReturnedAgain(feed: set<Key>, live: set<Key>, limit: nat, replies: seq<seq<Key>>, i: nat, k: Key)
    requires FeedWalk(feed, live, limit, replies) && i + 1 < |replies|
    requires forall j | 0 <= j <= i :: |replies[j]| > 0
    requires k in replies[i] && Before(k, replies[i][|replies[i]| - 1])
    ensures k in replies[i + 1]
  {
    hide Covers, IsReply, Before, AllReturned;
    var d, last := Desc(feed), replies[i][|replies[i]| - 1];
    DescSorted(feed);
    var start := FeedPrefix(feed, d, live, limit, replies, i);
    ReplyCovers(feed, live, CursorAt(replies, i), start, limit, replies[i]);
    ReplyUnder(feed, live, CursorAt(replies, i), limit, replies[i]);
    assert last in replies[i];
    var p :| 0 <= p < |d| && d[p] == last;
    assert StartsAt(d, CursorAt(replies, i + 1), p + 1);
    ReplyCovers(feed, live, CursorAt(replies, i + 1), p + 1, limit, replies[i + 1]);
    CoveredAgain(d, live, limit, start, replies[i], p, replies[i + 1], k);
  }

  lemma {:induction false} PartNoRepeats(replies: seq<seq<Key>>, n: nat)
    requires n <= |replies| && NoRepeats(Concat(replies))
    ensures NoRepeats(Concat(replies[..n]))
    decreases |replies|
  {
    if n == |replies| {
      assert replies[..n] == replies;
    } else {
      NoRepeatsJoin(Concat(replies[..|replies| - 1]), replies[|replies| - 1]);
      PartNoRepeats(replies[..|replies| - 1], n);
      assert replies[..|replies| - 1][..n] == replies[..n];
    }
  }

  /** Nothing is returned twice by a whole walk if and only if no reply repeats a key and each
      ends with its oldest key. */
  lemma FeedWalkNoRepeats(feed: set<Key>, live: set<Key>, limit: nat, replies: seq<seq<Key>>)
    requires FeedWalk(feed, live, limit, replies) && Stops(replies)
    ensures NoRepeats(Concat(replies)) <==>
      forall i | 0 <= i < |replies| :: NoRepeats(replies[i]) && EndsOldest(replies[i])
  {
    hide NoRepeats, EndsOldest, FeedWalk, Concat;
    var n := |replies|;
    assert replies[..n] == replies;
    if forall i | 0 <= i < n :: NoRepeats(replies[i]) && EndsOldest(replies[i]) {
      NoRepeatsSoFar(feed, live, limit, replies, n);
    }
    if NoRepeats(Concat(replies)) {
      forall i | 0 <= i < n ensures NoRepeats(replies[i]) && EndsOldest(replies[i]) {
        EndsOldestOnce(feed, live, limit, replies, i);
      }
    }
  }

  lemma EndsOldestOnce(feed: set<Key>, live: set<Key>, limit: nat, replies: seq<seq<Key>>, i: nat)
    requires FeedWalk(feed, live, limit, replies) && Stops(replies)
    requires NoRepeats(Concat(replies)) && i < |replies|
    ensures NoRepeats(replies[i]) && EndsOldest(replies[i])
  {
    hide NoRepeats, FeedWalk, Concat, Before;
    RepliesApart(replies, i);
    if |replies[i]| > 0 {
      forall k | k in replies[i] ensures !Before(k, replies[i][|replies[i]| - 1]) {
        if Before(k, replies[i][|replies[i]| - 1]) {
          ReturnedAgain(feed, live, limit, replies, i, k);
        }
      }
    }
  }

  lemma RepliesApart(replies: seq<seq<Key>>, i: nat)
    requires i < |replies| && NoRepeats(Concat(replies))
    ensures NoRepeats(replies[i])
    ensures i + 1 < |replies| ==> forall k | k in replies[i] :: k !in replies[i + 1]
  {
    PartNoRepeats(replies, i + 1);
    ConcatNext(replies, i);
    NoRepeatsJoin(Concat(replies[..i]), replies[i]);
    if i + 1 < |replies| {
      PartNoRepeats(replies, i + 2);
      ConcatNext(replies, i + 1);
      NoRepeatsJoin(Concat(replies[..i + 1]), replies[i + 1]);
    }
  }

  /** Two live posts on one page, returned oldest first: the older one comes back. */
  lemma RepeatingWalk(older: Key, newer: Key)
    requires Before(older, newer)
    ensures var feed, replies := {older, newer}, [[older, newer], [older], []];
      FeedWalk(feed, feed, 2, replies) && Stops(replies) && !NoRepeats(Concat(replies))
  {
    var feed, replies := {older, newer}, [[older, newer], [older], []];
    assert Below(feed, None) == feed && Below(feed, Some(newer)) == {older} && Below(feed, Some(older)) == {};
    DescUnique([newer, older], feed);
    DescUnique([older], {older});
    DescUnique([], {});
    assert replies[..2][..1] == [[older, newer]] && replies[..2] == [[older, newer], [older]];
    assert Concat(replies) == [older, newer, older] by {
      assert Concat([[older, newer]]) == [older, newer] by { assert [[older, newer]][..0] == []; }
      assert Concat(replies[..2]) == [older, newer, older];
    }
    assert Concat(replies)[0] == Concat(replies)[2];
  }

  lemma {:induction false} OrderedSoFar(feed: set<Key>, live: set<Key>, limit: nat, replies: seq<seq<Key>>, n: nat)
    requires FeedWalk(feed, live, limit, replies)
    requires n <= |replies| && forall i | 0 <= i < n :: Descending(replies[i])
    requires forall i | 0 <= i < |replies| - 1 :: |replies[i]| > 0
    ensures Descending(Concat(replies[..n]))
    ensures n == 0 ==> Concat(replies[..n]) == []
    ensures n > 0 && |replies[n - 1]| > 0 ==> forall k | k in Concat(replies[..n]) :: !Under(k, CursorAt(replies, n))
    decreases n
  {
    hide IsReply, Under, Descending;
    if n > 0 {
      OrderedSoFar(feed, live, limit, replies, n - 1);
      ConcatNext(replies, n - 1);
      ReplyUnder(feed, live, CursorAt(replies, n - 1), limit, replies[n - 1]);
      OrderedStep(Concat(replies[..n - 1]), CursorAt(replies, n - 1), replies[n - 1]);
    } else {
      assert Concat(replies[..n]) == [];
      DescendingNone();
    }
  }

  lemma OrderedStep(done: seq<Key>, cursor: Option<Key>, reply: seq<Key>)
    requires Descending(done) && Descending(reply)
    requires forall k | k in done :: !Under(k, cursor)
    requires forall k | k in reply :: Under(k, cursor)
    ensures Descending(done + reply)
    ensures |reply| > 0 ==> forall k | k in done + reply :: !Under(k, NextCursor(reply))
  {
    JoinDescending(done, reply);
    if |reply| > 0 { assert reply[|reply| - 1] in reply; }
  }

  lemma {:induction false} PartDescending(replies: seq<seq<Key>>, i: nat)
    requires i < |replies| && Descending(Concat(replies))
    ensures Descending(replies[i])
    decreases |replies|
  {
    var front, last := Concat(replies[..|replies| - 1]), replies[|replies| - 1];
    assert forall j | 0 <= j < |front| :: front[j] == Concat(replies)[j];
    assert forall j | 0 <= j < |last| :: last[j] == Concat(replies)[|front| + j];
    if i < |replies| - 1 { PartDescending(replies[..|replies| - 1], i); }
  }

  /** A whole walk is newest first, and then without repetition, if and only if every reply is. */
  lemma FeedWalkInOrder(feed: set<Key>, live: set<Key>, limit: nat, replies: seq<seq<Key>>)
    requires FeedWalk(feed, live, limit, replies) && Stops(replies)
    ensures Descending(Concat(replies)) <==> forall i | 0 <= i < |replies| :: Descending(replies[i])
    ensures Descending(Concat(replies)) ==> NoRepeats(Concat(replies))
  {
    assert replies[..|replies|] == replies;
    if forall i | 0 <= i < |replies| :: Descending(replies[i]) {
      OrderedSoFar(feed, live, limit, replies, |replies|);
    }
    if Descending(Concat(replies)) {
      forall i | 0 <= i < |replies| ensures Descending(replies[i]) { PartDescending(replies, i); }
    }
  }
}
