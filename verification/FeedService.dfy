/** Reading a feed: ids from the feed cache, posts from the post layer, the cursor from the
    posts that came back. */
module FeedReading {
  import opened Model
  import opened Lex
  import opened FeedMembers
  import opened Paging
  import opened Outbox
  import opened Settled
  import opened FanIn
  import opened FeedStore
  import opened PostRepositories
  import opened PostCache

  function MakeNewCursor(posts: seq<Post>): Option<Cursor> {
    if |posts| == 0 then None
    else Some(Cursor(posts[|posts| - 1].id, posts[|posts| - 1].createdAt))
  }

  function FeedKeys(posts: seq<Post>): (q: seq<Key>)
    ensures |q| == |posts| && forall i | 0 <= i < |posts| :: q[i] == PostKey(posts[i].createdAt, posts[i].id)
  {
    seq(|posts|, i requires 0 <= i < |posts| => PostKey(posts[i].createdAt, posts[i].id))
  }

  /** The feed's keys carry the creation time of their rows. */
  predicate KeysOfRows(rows: Rows, keys: set<Key>) {
    forall k | k in keys && k.id in rows :: k.time == UnixMilli(rows[k.id].createdAt)
  }

  function LiveKeys(rows: Rows, keys: set<Key>): set<Key> {
    set k | k in keys && k.id in rows && rows[k.id].Live()
  }

  lemma PostOfKey(rows: Rows, ids: seq<Uuid>, p: Post)
    requires FromRow(rows, ids, p)
    ensures UnixMilli(p.createdAt) == UnixMilli(rows[p.id].createdAt)
  {
    StoredMillis(p.createdAt);
  }

  /** A read of a feed is one reply of a feed walk: the live posts of the page below the
      cursor, and the next cursor is the key of the last of them, although the posts may carry
      their creation time to the nanosecond or to the microsecond. */
  lemma ReadIsReply(rows: Rows, keys: set<Key>, cursor: Option<Cursor>, limit: nat, out: seq<Bytes>, posts: seq<Post>)
    requires AllInRange(keys, CursorKey(cursor)) && KeysOfRows(rows, keys)
    requires IsRange(Members(keys), BoundOf(CursorKey(cursor)), limit, out)
    requires SameAsTable(rows, ParsedIds(out), posts)
    ensures IsReply(keys, LiveKeys(rows, keys), CursorKey(cursor), limit, FeedKeys(posts))
    ensures CursorKey(MakeNewCursor(posts)) == NextCursor(FeedKeys(posts))
  {
    hide Member, ParseUuid, IdOf, IsRange;
    var page := Page(keys, CursorKey(cursor), limit);
    FeedPage(keys, CursorKey(cursor), limit, out);
    PageLive(keys, CursorKey(cursor), limit);
    forall k | k in FeedKeys(posts) ensures k in page && k in LiveKeys(rows, keys) {
      var i :| 0 <= i < |posts| && FeedKeys(posts)[i] == k;
      assert posts[i] in posts;
      PostOfKey(rows, ParsedIds(out), posts[i]);
      var j :| 0 <= j < |page| && KeyIds(page)[j] == posts[i].id;
      assert page[j] in page;
      assert page[j] == k;
    }
    forall k | k in page && k in LiveKeys(rows, keys) ensures k in FeedKeys(posts) {
      var j :| 0 <= j < |page| && page[j] == k;
      assert KeyIds(page)[j] == k.id;
      assert k.id in ParsedIds(out);
      var p :| p in posts && p.id == k.id;
      PostOfKey(rows, ParsedIds(out), p);
      var i :| 0 <= i < |posts| && posts[i] == p;
      assert FeedKeys(posts)[i] == k;
    }
  }

  /** The keys of the posts a user's feed holds. */
  function HeldKeys(s: State, user: Uuid): set<Key> {
    set p | p in s.rows && Has(s, user, p) :: PostKey(s.rows[p].createdAt, p)
  }

  /** In every reachable state a feed is the members of the posts it holds, under the creation
      times of their rows, so every read of it is such a reply. */
  lemma ReachableFeed(states: seq<State>, actions: seq<Action>, limit: nat, n: nat, user: Uuid)
    requires Run(states, actions, limit) && Init(states[0]) && n <= |actions|
    ensures var s := states[n];
      FeedOf(s.feeds, user) == Members(HeldKeys(s, user)) && KeysOfRows(s.rows, HeldKeys(s, user))
  {
    Reachable(states, actions, limit, n);
    HeldMembers(states[n], user);
  }

  lemma HeldMembers(s: State, user: Uuid)
    requires Inv(s) && Sound(s)
    ensures FeedOf(s.feeds, user) == Members(HeldKeys(s, user)) && KeysOfRows(s.rows, HeldKeys(s, user))
  {
    hide Member;
    forall p | p in s.rows ensures MemberIn(s.rows, p) == Member(PostKey(s.rows[p].createdAt, p)) {
      assert RowOk(s.rows, p);
    }
    forall m | m in FeedOf(s.feeds, user) ensures m in Members(HeldKeys(s, user)) {
      assert RowMember(s.rows, m);
      var p :| p in s.rows && m == MemberIn(s.rows, p);
      assert PostKey(s.rows[p].createdAt, p) in HeldKeys(s, user);
    }
  }

  // ----- Reading a feed page by page -------------------------------------------------------

  /** What one GetFromFeed returns over an agreeing post cache. */
  ghost predicate IsRead(rows: Rows, feed: set<Bytes>, cursor: Option<Cursor>, limit: nat, posts: seq<Post>) {
    exists out ::
      && IsRange(feed, BoundOf(CursorKey(cursor)), limit, out)
      && SameAsTable(rows, ParsedIds(out), posts)
      && (Distinct(ParsedIds(out)) ==> Distinct(IdsOf(posts)))
  }

  function CursorOf(pages: seq<seq<Post>>, i: nat): Option<Cursor>
    requires i <= |pages|
  {
    if i == 0 then None else MakeNewCursor(pages[i - 1])
  }

  /** Each read is given the cursor that the one before it returned. */
  ghost predicate ReadWalk(rows: Rows, feed: set<Bytes>, limit: nat, pages: seq<seq<Post>>) {
    forall i | 0 <= i < |pages| :: IsRead(rows, feed, CursorOf(pages, i), limit, pages[i])
  }

  /** The reads go on until one comes back empty. */
  predicate ReadToEnd(pages: seq<seq<Post>>) {
    && |pages| > 0
    && |pages[|pages| - 1]| == 0
    && forall i | 0 <= i < |pages| - 1 :: |pages[i]| > 0
  }

  function Replies(pages: seq<seq<Post>>): seq<seq<Key>> {
    seq(|pages|, i requires 0 <= i < |pages| => FeedKeys(pages[i]))
  }

  predicate Readable(rows: Rows, keys: set<Key>) {
    KeysOfRows(rows, keys) && forall k | k in keys :: k.id in rows && InRange(k)
  }

  lemma PageDistinct(rows: Rows, keys: set<Key>, page: seq<Key>)
    requires Readable(rows, keys) && Descending(page) && forall k | k in page :: k in keys
    ensures Distinct(KeyIds(page))
  {
    forall i, j | 0 <= i < j < |page| ensures page[i].id != page[j].id {
      assert page[i] in page && page[j] in page;
    }
  }

  lemma ReadReply(rows: Rows, keys: set<Key>, cursor: Option<Cursor>, limit: nat, posts: seq<Post>)
    requires Readable(rows, keys) && AllInRange(keys, CursorKey(cursor))
    requires IsRead(rows, Members(keys), cursor, limit, posts)
    ensures IsReply(keys, LiveKeys(rows, keys), CursorKey(cursor), limit, FeedKeys(posts))
    ensures CursorKey(MakeNewCursor(posts)) == NextCursor(FeedKeys(posts))
    ensures NoRepeats(FeedKeys(posts))
  {
    hide Member, IdOf, IsRange, SameAsTable, Page;
    var out :| IsRange(Members(keys), BoundOf(CursorKey(cursor)), limit, out)
      && SameAsTable(rows, ParsedIds(out), posts) && (Distinct(ParsedIds(out)) ==> Distinct(IdsOf(posts)));
    ReadIsReply(rows, keys, cursor, limit, out, posts);
    FeedPage(keys, CursorKey(cursor), limit, out);
    PageIsPage(keys, CursorKey(cursor), limit);
    PageLive(keys, CursorKey(cursor), limit);
    PageDistinct(rows, keys, Page(keys, CursorKey(cursor), limit));
    forall i, j | 0 <= i < j < |posts| ensures FeedKeys(posts)[i] != FeedKeys(posts)[j] {
      assert IdsOf(posts)[i] != IdsOf(posts)[j];
    }
  }

  lemma {:induction false} WalkStep(rows: Rows, keys: set<Key>, limit: nat, pages: seq<seq<Post>>, i: nat)
    requires Readable(rows, keys) && ReadWalk(rows, Members(keys), limit, pages) && i < |pages|
    ensures CursorKey(CursorOf(pages, i)) == CursorAt(Replies(pages), i)
    ensures IsReply(keys, LiveKeys(rows, keys), CursorAt(Replies(pages), i), limit, Replies(pages)[i])
    ensures CursorKey(MakeNewCursor(pages[i])) == NextCursor(Replies(pages)[i])
    ensures NoRepeats(Replies(pages)[i])
  {
    hide IsRead, IsReply, NoRepeats, Member;
    if i > 0 {
      WalkStep(rows, keys, limit, pages, i - 1);
      ReplyUnder(keys, LiveKeys(rows, keys), CursorAt(Replies(pages), i - 1), limit, Replies(pages)[i - 1]);
      if |Replies(pages)[i - 1]| > 0 {
        assert Replies(pages)[i - 1][|Replies(pages)[i - 1]| - 1] in Replies(pages)[i - 1];
      }
    }
    ReadReply(rows, keys, CursorOf(pages, i), limit, pages[i]);
  }

  lemma ReadsAreWalk(rows: Rows, keys: set<Key>, limit: nat, pages: seq<seq<Post>>)
    requires Readable(rows, keys) && ReadWalk(rows, Members(keys), limit, pages)
    ensures FeedWalk(keys, LiveKeys(rows, keys), limit, Replies(pages))
    ensures forall i | 0 <= i < |pages| :: NoRepeats(Replies(pages)[i])
  {
    hide IsReply, NoRepeats, ReadWalk;
    forall i | 0 <= i < |pages|
      ensures IsReply(keys, LiveKeys(rows, keys), CursorAt(Replies(pages), i), limit, Replies(pages)[i])
      ensures NoRepeats(Replies(pages)[i])
    {
      WalkStep(rows, keys, limit, pages, i);
    }
  }

  ghost predicate Returned(pages: seq<seq<Post>>, post: Uuid) {
    exists i, q :: 0 <= i < |pages| && q in pages[i] && q.id == post
  }

  lemma ReturnedKeys(rows: Rows, keys: set<Key>, limit: nat, pages: seq<seq<Post>>, k: Key)
    requires Readable(rows, keys) && FeedWalk(keys, LiveKeys(rows, keys), limit, Replies(pages))
    requires k in LiveKeys(rows, keys)
    ensures k in Concat(Replies(pages)) <==> Returned(pages, k.id)
  {
    hide Page;
    if k in Concat(Replies(pages)) {
      var i := FromConcat(Replies(pages), k);
      var j :| 0 <= j < |pages[i]| && FeedKeys(pages[i])[j] == k;
      assert pages[i][j] in pages[i];
    }
    if Returned(pages, k.id) {
      var i, q :| 0 <= i < |pages| && q in pages[i] && q.id == k.id;
      var j :| 0 <= j < |pages[i]| && pages[i][j] == q;
      var h := Replies(pages)[i][j];
      assert h in Replies(pages)[i];
      ReplyUnder(keys, LiveKeys(rows, keys), CursorAt(Replies(pages), i), limit, Replies(pages)[i]);
      assert h == k;
      InConcat(Replies(pages), i, k);
    }
  }

  lemma HeldReadable(s: State, user: Uuid)
    requires Inv(s) && Sound(s)
    requires forall k | k in HeldKeys(s, user) :: InRange(k)
    ensures FeedOf(s.feeds, user) == Members(HeldKeys(s, user)) && Readable(s.rows, HeldKeys(s, user))
  {
    hide InRange;
    HeldMembers(s, user);
  }

  /** Reading a feed page by page, in any reachable state that does not change meanwhile: every
      live post of the feed is returned if and only if there is no blind spot. */
  lemma ReadsCover(states: seq<State>, actions: seq<Action>, batchLimit: nat, n: nat, user: Uuid, limit: nat, pages: seq<seq<Post>>)
    requires Run(states, actions, batchLimit) && Init(states[0]) && n <= |actions| && limit >= 1
    requires forall k | k in HeldKeys(states[n], user) :: InRange(k)
    requires ReadWalk(states[n].rows, FeedOf(states[n].feeds, user), limit, pages) && ReadToEnd(pages)
    ensures var s := states[n];
      (forall p | p in s.rows && Has(s, user, p) && s.rows[p].Live() :: Returned(pages, p))
      <==> !BlindSpot(HeldKeys(s, user), LiveKeys(s.rows, HeldKeys(s, user)), limit)
  {
    Reachable(states, actions, batchLimit, n);
    HeldReadable(states[n], user);
    ReadsCoverKeys(states[n], user, limit, pages);
  }

  lemma ReadsCoverKeys(s: State, user: Uuid, limit: nat, pages: seq<seq<Post>>)
    requires limit >= 1 && Readable(s.rows, HeldKeys(s, user))
    requires ReadWalk(s.rows, Members(HeldKeys(s, user)), limit, pages) && ReadToEnd(pages)
    ensures (forall p | p in s.rows && Has(s, user, p) && s.rows[p].Live() :: Returned(pages, p))
      <==> !BlindSpot(HeldKeys(s, user), LiveKeys(s.rows, HeldKeys(s, user)), limit)
  {
    hide Has, InRange, ReadWalk, FeedWalk, BlindSpot, Returned;
    var keys, live := HeldKeys(s, user), LiveKeys(s.rows, HeldKeys(s, user));
    ReadsAreWalk(s.rows, keys, limit, pages);
    FeedWalkCoverage(keys, live, limit, Replies(pages));
    forall k | k in live ensures k in Concat(Replies(pages)) <==> Returned(pages, k.id) {
      ReturnedKeys(s.rows, keys, limit, pages, k);
    }
    forall p | p in s.rows && Has(s, user, p) && s.rows[p].Live() ensures PostKey(s.rows[p].createdAt, p) in live {
    }
  }

  /** No post is returned twice if and only if every page ends with its oldest post. */
  lemma ReadsRepeat(states: seq<State>, actions: seq<Action>, batchLimit: nat, n: nat, user: Uuid, limit: nat, pages: seq<seq<Post>>)
    requires Run(states, actions, batchLimit) && Init(states[0]) && n <= |actions|
    requires forall k | k in HeldKeys(states[n], user) :: InRange(k)
    requires ReadWalk(states[n].rows, FeedOf(states[n].feeds, user), limit, pages) && ReadToEnd(pages)
    ensures NoRepeats(Concat(Replies(pages))) <==> forall i | 0 <= i < |pages| :: EndsOldest(FeedKeys(pages[i]))
  {
    hide Has, InRange, ReadWalk, FeedWalk, NoRepeats, EndsOldest;
    var s := states[n];
    Reachable(states, actions, batchLimit, n);
    HeldReadable(s, user);
    ReadsAreWalk(s.rows, HeldKeys(s, user), limit, pages);
    FeedWalkNoRepeats(HeldKeys(s, user), LiveKeys(s.rows, HeldKeys(s, user)), limit, Replies(pages));
    assert forall i | 0 <= i < |pages| :: Replies(pages)[i] == FeedKeys(pages[i]);
  }

  lemma ReturnedIsHeld(rows: Rows, keys: set<Key>, limit: nat, pages: seq<seq<Post>>, post: Uuid)
    requires FeedWalk(keys, LiveKeys(rows, keys), limit, Replies(pages)) && Returned(pages, post)
    ensures exists k :: k in keys && k.id == post && post in rows && rows[post].Live()
  {
    hide Page;
    var i, q :| 0 <= i < |pages| && q in pages[i] && q.id == post;
    var j :| 0 <= j < |pages[i]| && pages[i][j] == q;
    var k := Replies(pages)[i][j];
    assert k in Replies(pages)[i];
    ReplyUnder(keys, LiveKeys(rows, keys), CursorAt(Replies(pages), i), limit, Replies(pages)[i]);
    assert k in keys && k.id == post;
  }

  /** In a drained feed whose deletions were all queued there is nothing deleted. */
  lemma NoBlindSpot(s: State, user: Uuid, limit: nat)
    requires limit >= 1
    requires forall p | p in s.rows && Has(s, user, p) :: s.rows[p].Live()
    ensures !BlindSpot(HeldKeys(s, user), LiveKeys(s.rows, HeldKeys(s, user)), limit)
  {
    hide Has;
    var keys := HeldKeys(s, user);
    DescSorted(keys);
    forall at: nat ensures !BlindAt(Desc(keys), LiveKeys(s.rows, keys), limit, at) {
      assert at + limit <= |Desc(keys)| ==> Desc(keys)[at] in Desc(keys);
    }
  }

  lemma DrainedHolds(states: seq<State>, actions: seq<Action>, batchLimit: nat, user: Uuid)
    requires Run(states, actions, batchLimit) && Init(states[0]) && FixedTable(states)
    requires Drained(states[|actions|]) && DeletionsQueued(states[|actions|], user)
    ensures var s := states[|actions|];
      forall p | p in s.rows :: Has(s, user, p) <==> Follows(s, user, p) && s.rows[p].Live()
  {
    hide Has;
    var s := states[|actions|];
    Reachable(states, actions, batchLimit, |actions|);
    forall p | p in s.rows ensures Has(s, user, p) <==> Follows(s, user, p) && s.rows[p].Live() {
      DrainedFeed(states, actions, batchLimit, user, p);
      DeletedEventsOfDeadRows(s, p);
    }
  }

  /** Once the outbox is drained, with fixed followers and every deletion queued, reading a feed
      to the end returns exactly the live posts of the followed authors. */
  lemma ReadsFollowed(states: seq<State>, actions: seq<Action>, batchLimit: nat, user: Uuid, limit: nat, pages: seq<seq<Post>>)
    requires Run(states, actions, batchLimit) && Init(states[0]) && FixedTable(states) && limit >= 1
    requires Drained(states[|actions|]) && DeletionsQueued(states[|actions|], user)
    requires forall k | k in HeldKeys(states[|actions|], user) :: InRange(k)
    requires ReadWalk(states[|actions|].rows, FeedOf(states[|actions|].feeds, user), limit, pages) && ReadToEnd(pages)
    ensures var s := states[|actions|];
      forall p :: Returned(pages, p) <==> p in s.rows && Follows(s, user, p) && s.rows[p].Live()
  {
    hide Has, InRange, ReadWalk, FeedWalk, BlindSpot, Returned;
    var s := states[|actions|];
    DrainedHolds(states, actions, batchLimit, user);
    NoBlindSpot(s, user, limit);
    ReadsCover(states, actions, batchLimit, |actions|, user, limit, pages);
    Reachable(states, actions, batchLimit, |actions|);
    HeldReadable(s, user);
    ReadsAreWalk(s.rows, HeldKeys(s, user), limit, pages);
    forall p | Returned(pages, p) ensures p in s.rows && Follows(s, user, p) && s.rows[p].Live() {
      ReturnedIsHeld(s.rows, HeldKeys(s, user), limit, pages, p);
    }
  }

  // ----- A page in terms of creation times -------------------------------------------------

  /** Up to the year 2286. */
  const LAST_TIME := 10_000_000_000_000_000_000

  lemma DatedReadable(s: State, user: Uuid)
    requires Inv(s) && Sound(s) && forall p | p in s.rows :: 0 <= s.rows[p].createdAt < LAST_TIME
    ensures FeedOf(s.feeds, user) == Members(HeldKeys(s, user)) && Readable(s.rows, HeldKeys(s, user))
  {
    hide Has;
    forall k | k in HeldKeys(s, user) ensures InRange(k) {
      assert k.id in s.rows && 0 <= s.rows[k.id].createdAt < LAST_TIME;
    }
    HeldReadable(s, user);
  }

  /** Keys in order belong to creation times in order, up to a millisecond. */
  lemma OrderedTimes(rows: Rows, keys: set<Key>, a: Key, b: Key)
    requires KeysOfRows(rows, keys) && a in keys && b in keys && a.id in rows && b.id in rows && Before(a, b)
    ensures rows[a.id].createdAt < rows[b.id].createdAt + 1_000_000
  {
  }

  /** A page of a feed in any reachable state: ids of posts in the feed, at most `limit`, each
      once, below the cursor, and newest first; what is left out is older than a full page. All
      comparisons are of the rows' creation times, to the millisecond that a member keeps. */
  lemma PageByCreation(states: seq<State>, actions: seq<Action>, batchLimit: nat, n: nat, user: Uuid,
                       cursor: Option<Cursor>, limit: nat, out: seq<Bytes>)
    requires Run(states, actions, batchLimit) && Init(states[0]) && n <= |actions|
    requires forall p | p in states[n].rows :: 0 <= states[n].rows[p].createdAt < 10_000_000_000_000_000_000
    requires cursor.Some? ==> 0 <= cursor.value.lastTime < 10_000_000_000_000_000_000
    requires IsRange(FeedOf(states[n].feeds, user), BoundOf(CursorKey(cursor)), limit, out)
    ensures var s, ids := states[n], ParsedIds(out);
      && |ids| <= limit
      && (forall i | 0 <= i < |ids| ::
            && ids[i] in s.rows && FeedMember(s.rows[ids[i]].createdAt, ids[i]) in FeedOf(s.feeds, user)
            && (cursor.Some? ==> s.rows[ids[i]].createdAt < cursor.value.lastTime + 1_000_000))
      && (forall i, j | 0 <= i < j < |ids| ::
            ids[i] != ids[j] && s.rows[ids[j]].createdAt < s.rows[ids[i]].createdAt + 1_000_000)
      && (forall p | p in s.rows && FeedMember(s.rows[p].createdAt, p) in FeedOf(s.feeds, user) && p !in ids
                     && (cursor.Some? ==> s.rows[p].createdAt + 1_000_000 <= cursor.value.lastTime) ::
            |ids| == limit && forall i | 0 <= i < |ids| :: s.rows[p].createdAt < s.rows[ids[i]].createdAt + 1_000_000)
  {
    hide Has, Page, IsRange, Member, Inv, Sound, Readable;
    var s, keys := states[n], HeldKeys(states[n], user);
    Reachable(states, actions, batchLimit, n);
    DatedReadable(s, user);
    DatedRange(s, user, cursor);
    FeedPage(keys, CursorKey(cursor), limit, out);
    var page := Page(keys, CursorKey(cursor), limit);
    PageIsPage(keys, CursorKey(cursor), limit);
    PageTimes(s, user, cursor, page);
    forall p | p in s.rows && FeedMember(s.rows[p].createdAt, p) in FeedOf(s.feeds, user) && p !in KeyIds(page)
                && (cursor.Some? ==> s.rows[p].createdAt + 1_000_000 <= cursor.value.lastTime)
      ensures |page| == limit && forall i | 0 <= i < |page| :: s.rows[p].createdAt < s.rows[page[i].id].createdAt + 1_000_000
    {
      PageLeavesOut(s, user, cursor, limit, page, p);
    }
  }

  lemma DatedRange(s: State, user: Uuid, cursor: Option<Cursor>)
    requires Readable(s.rows, HeldKeys(s, user)) && (cursor.Some? ==> 0 <= cursor.value.lastTime < LAST_TIME)
    ensures AllInRange(HeldKeys(s, user), CursorKey(cursor))
  {
    hide HeldKeys;
  }

  lemma PageTimes(s: State, user: Uuid, cursor: Option<Cursor>, page: seq<Key>)
    requires Inv(s) && Readable(s.rows, HeldKeys(s, user)) && Descending(page)
    requires forall k | k in page :: k in Below(HeldKeys(s, user), CursorKey(cursor))
    ensures forall i | 0 <= i < |page| ::
      && page[i].id in s.rows && FeedMember(s.rows[page[i].id].createdAt, page[i].id) in FeedOf(s.feeds, user)
      && (cursor.Some? ==> s.rows[page[i].id].createdAt < cursor.value.lastTime + 1_000_000)
    ensures forall i, j | 0 <= i < j < |page| ::
      page[i].id != page[j].id && s.rows[page[j].id].createdAt < s.rows[page[i].id].createdAt + 1_000_000
  {
    hide HeldKeys, FeedMember, Inv, InRange;
    var keys := HeldKeys(s, user);
    PageDistinct(s.rows, keys, page);
    forall i | 0 <= i < |page|
      ensures page[i] in keys && page[i].id in s.rows && FeedMember(s.rows[page[i].id].createdAt, page[i].id) in FeedOf(s.feeds, user)
      ensures cursor.Some? ==> s.rows[page[i].id].createdAt < cursor.value.lastTime + 1_000_000
    {
      assert page[i] in page;
      HeldMember(s, user, page[i]);
    }
    forall i, j | 0 <= i < j < |page|
      ensures page[i].id != page[j].id && s.rows[page[j].id].createdAt < s.rows[page[i].id].createdAt + 1_000_000
    {
      assert KeyIds(page)[i] != KeyIds(page)[j];
      OrderedTimes(s.rows, keys, page[j], page[i]);
    }
  }

  lemma PageLeavesOut(s: State, user: Uuid, cursor: Option<Cursor>, limit: nat, page: seq<Key>, p: Uuid)
    requires Inv(s) && Readable(s.rows, HeldKeys(s, user)) && IsPage(HeldKeys(s, user), CursorKey(cursor), limit, page)
    requires p in s.rows && FeedMember(s.rows[p].createdAt, p) in FeedOf(s.feeds, user) && p !in KeyIds(page)
    requires cursor.Some? ==> s.rows[p].createdAt + 1_000_000 <= cursor.value.lastTime
    ensures |page| == limit
    ensures forall i | 0 <= i < |page| ::
      page[i].id in s.rows && s.rows[p].createdAt < s.rows[page[i].id].createdAt + 1_000_000
  {
    hide HeldKeys, FeedMember, Inv, InRange, Descending;
    var k := HeldKey(s, user, p);
    assert forall i | 0 <= i < |page| :: KeyIds(page)[i] == page[i].id;
    assert k !in page;
    assert k in Below(HeldKeys(s, user), CursorKey(cursor));
    forall i | 0 <= i < |page|
      ensures page[i].id in s.rows && s.rows[p].createdAt < s.rows[page[i].id].createdAt + 1_000_000
    {
      assert page[i] in page;
      OrderedTimes(s.rows, HeldKeys(s, user), k, page[i]);
    }
  }

  lemma HeldMember(s: State, user: Uuid, k: Key)
    requires Inv(s) && k in HeldKeys(s, user)
    ensures k.id in s.rows && FeedMember(s.rows[k.id].createdAt, k.id) in FeedOf(s.feeds, user)
  {
    assert RowOk(s.rows, k.id);
  }

  lemma HeldKey(s: State, user: Uuid, p: Uuid) returns (k: Key)
    requires Inv(s) && p in s.rows && FeedMember(s.rows[p].createdAt, p) in FeedOf(s.feeds, user)
    ensures k in HeldKeys(s, user) && k == PostKey(s.rows[p].createdAt, p)
  {
    assert RowOk(s.rows, p);
    assert Has(s, user, p);
    k := PostKey(s.rows[p].createdAt, p);
  }

  // ----- Where the order of a page comes from ----------------------------------------------

  /** What a read found: its hits are in entries, its misses the table gave as `found`. */
  datatype Source = Source(entries: Entries, cacheUp: bool, found: seq<Post>) {
    function Posts(ids: seq<Uuid>): seq<Post> {
      (if cacheUp then Hits(entries, ids) else []) + found
    }
  }

  ghost predicate Gives(rows: Rows, source: Source, ids: seq<Uuid>, posts: seq<Post>) {
    && Coherent(rows, source.entries)
    && IsFound(rows, Missed(source.entries, ids, source.cacheUp), source.found)
    && posts == source.Posts(ids)
  }

  ghost predicate IsReadFrom(rows: Rows, feed: set<Bytes>, cursor: Option<Cursor>, limit: nat, source: Source, posts: seq<Post>) {
    exists out :: IsRange(feed, BoundOf(CursorKey(cursor)), limit, out) && Gives(rows, source, ParsedIds(out), posts)
  }

  lemma ReadFromIsRead(rows: Rows, feed: set<Bytes>, cursor: Option<Cursor>, limit: nat, source: Source, posts: seq<Post>)
    requires IsReadFrom(rows, feed, cursor, limit, source, posts)
    ensures IsRead(rows, feed, cursor, limit, posts)
  {
    hide IsRange, Coherent, HalfCoherent, IsFound, SameAsTable, Distinct;
    var out :| IsRange(feed, BoundOf(CursorKey(cursor)), limit, out) && Gives(rows, source, ParsedIds(out), posts);
    var ids := ParsedIds(out);
    ReadIsTable(rows, source.entries, ids, source.cacheUp, source.found);
    CoherentIsHalf(rows, source.entries);
    if Distinct(ids) { ReturnedOnce(rows, source.entries, ids, source.cacheUp, source.found); }
  }

  /** Nothing live was missed, or the last row that the table gave is the oldest live post of
      the page. */
  predicate LastRowOldest(rows: Rows, page: seq<Key>, found: seq<Post>) {
    |found| > 0 ==>
      var last := found[|found| - 1];
      forall k | k in page && k.id in rows && rows[k.id].Live() :: !Before(k, PostKey(last.createdAt, last.id))
  }

  /** Hits come newest first. */
  lemma HitsEndOldest(rows: Rows, keys: set<Key>, page: seq<Key>, entries: Entries, hits: seq<Post>)
    requires Readable(rows, keys) && Descending(page) && forall k | k in page :: k in keys
    requires HalfCoherent(rows, entries) && hits == Hits(entries, KeyIds(page))
    requires forall k | k in FeedKeys(hits) :: k in page
    ensures EndsOldest(FeedKeys(hits))
  {
    hide InRange, Hits, Precedes, KeysOfRows;
    var ids, n := KeyIds(page), |hits| - 1;
    assert forall id | id in entries :: RowOk(rows, id);
    PageDistinct(rows, keys, page);
    HitsInOrder(entries, ids);
    forall i | 0 <= i < n ensures !Before(FeedKeys(hits)[i], FeedKeys(hits)[n]) {
      assert Precedes(ids, hits[i].id, hits[n].id);
      assert FeedKeys(hits)[i] in FeedKeys(hits) && FeedKeys(hits)[n] in FeedKeys(hits);
      AskedIsNewer(page, FeedKeys(hits)[i], FeedKeys(hits)[n]);
    }
  }

  lemma AskedIsNewer(page: seq<Key>, a: Key, b: Key)
    requires Descending(page) && Distinct(KeyIds(page)) && a in page && b in page
    requires Precedes(KeyIds(page), a.id, b.id)
    ensures !Before(a, b)
  {
    KeyAtPosition(page, a);
    KeyAtPosition(page, b);
  }

  lemma KeyAtPosition(page: seq<Key>, k: Key)
    requires k in page && Distinct(KeyIds(page))
    ensures k.id in KeyIds(page) && page[Position(KeyIds(page), k.id)] == k
  {
    var i :| 0 <= i < |page| && page[i] == k;
    assert KeyIds(page)[i] == k.id;
  }

  /** A page ends with its oldest post if and only if nothing live was missed or the table's
      last row is the page's oldest live post. */
  lemma PageEndsOldest(rows: Rows, keys: set<Key>, cursor: Option<Cursor>, limit: nat, source: Source, posts: seq<Post>)
    requires Readable(rows, keys) && AllInRange(keys, CursorKey(cursor))
    requires IsReadFrom(rows, Members(keys), cursor, limit, source, posts)
    ensures EndsOldest(FeedKeys(posts)) <==> LastRowOldest(rows, Page(keys, CursorKey(cursor), limit), source.found)
  {
    hide IsRange, Coherent, HalfCoherent, IsFound, EndsOldest, LastRowOldest, Page, Readable, Member, Descending, NoRepeats;
    hide LiveKeys, IsRead, Hits, KeyIds, ParsedIds;
    var out :| IsRange(Members(keys), BoundOf(CursorKey(cursor)), limit, out) && Gives(rows, source, ParsedIds(out), posts);
    var page := Page(keys, CursorKey(cursor), limit);
    FeedPage(keys, CursorKey(cursor), limit, out);
    PageIsPage(keys, CursorKey(cursor), limit);
    PageLive(keys, CursorKey(cursor), limit);
    ReadFromIsRead(rows, Members(keys), cursor, limit, source, posts);
    ReadReply(rows, keys, cursor, limit, posts);
    if |source.found| > 0 {
      LastOfFound(rows, keys, page, posts, source.found);
    } else {
      CoherentIsHalf(rows, source.entries);
      NothingFound(rows, keys, page, source, posts);
    }
  }

  lemma LastOfFound(rows: Rows, keys: set<Key>, page: seq<Key>, posts: seq<Post>, found: seq<Post>)
    requires Readable(rows, keys) && forall k | k in page :: k in keys
    requires forall k :: k in FeedKeys(posts) <==> k in page && k in LiveKeys(rows, keys)
    requires |found| > 0 && |posts| > 0 && posts[|posts| - 1] == found[|found| - 1]
    ensures EndsOldest(FeedKeys(posts)) <==> LastRowOldest(rows, page, found)
  {
  }

  lemma NothingFound(rows: Rows, keys: set<Key>, page: seq<Key>, source: Source, posts: seq<Post>)
    requires Readable(rows, keys) && Descending(page) && forall k | k in page :: k in keys
    requires HalfCoherent(rows, source.entries) && source.found == [] && posts == source.Posts(KeyIds(page))
    requires forall k | k in FeedKeys(posts) :: k in page
    ensures EndsOldest(FeedKeys(posts)) && LastRowOldest(rows, page, source.found)
  {
    hide Readable, HalfCoherent;
    if source.cacheUp {
      assert posts == Hits(source.entries, KeyIds(page));
      HitsEndOldest(rows, keys, page, source.entries, posts);
    }
  }

  ghost predicate ReadWalkFrom(rows: Rows, feed: set<Bytes>, limit: nat, sources: seq<Source>, pages: seq<seq<Post>>) {
    && |sources| == |pages|
    && forall i | 0 <= i < |pages| :: IsReadFrom(rows, feed, CursorOf(pages, i), limit, sources[i], pages[i])
  }

  /** So, whatever the cache held at each read, no post is returned twice if and only if at each
      read nothing live was missed or the table's last row was the page's oldest live post. */
  lemma CachedReadsRepeat(states: seq<State>, actions: seq<Action>, batchLimit: nat, n: nat, user: Uuid, limit: nat,
                          sources: seq<Source>, pages: seq<seq<Post>>)
    requires Run(states, actions, batchLimit) && Init(states[0]) && n <= |actions|
    requires forall k | k in HeldKeys(states[n], user) :: InRange(k)
    requires ReadWalkFrom(states[n].rows, FeedOf(states[n].feeds, user), limit, sources, pages) && ReadToEnd(pages)
    ensures var s := states[n];
      NoRepeats(Concat(Replies(pages))) <==> forall i | 0 <= i < |pages| ::
        LastRowOldest(s.rows, Page(HeldKeys(s, user), CursorKey(CursorOf(pages, i)), limit), sources[i].found)
  {
    hide Has, InRange, IsRead, IsReadFrom, NoRepeats, EndsOldest, LastRowOldest, Page, Readable;
    var s := states[n];
    var keys := HeldKeys(s, user);
    Reachable(states, actions, batchLimit, n);
    HeldReadable(s, user);
    forall i | 0 <= i < |pages| ensures IsRead(s.rows, Members(keys), CursorOf(pages, i), limit, pages[i]) {
      ReadFromIsRead(s.rows, Members(keys), CursorOf(pages, i), limit, sources[i], pages[i]);
    }
    ReadsRepeat(states, actions, batchLimit, n, user, limit, pages);
    forall i | 0 <= i < |pages|
      ensures EndsOldest(FeedKeys(pages[i])) <==>
        LastRowOldest(s.rows, Page(keys, CursorKey(CursorOf(pages, i)), limit), sources[i].found)
    {
      CursorInRange(s.rows, keys, limit, pages, i);
      PageEndsOldest(s.rows, keys, CursorOf(pages, i), limit, sources[i], pages[i]);
    }
  }

  lemma NextInKeys(keys: set<Key>, reply: seq<Key>)
    requires forall k | k in reply :: k in keys
    ensures NextCursor(reply).Some? ==> NextCursor(reply).value in keys
  {
    assert |reply| > 0 ==> reply[|reply| - 1] in reply;
  }

  lemma CursorInRange(rows: Rows, keys: set<Key>, limit: nat, pages: seq<seq<Post>>, i: nat)
    requires Readable(rows, keys) && ReadWalk(rows, Members(keys), limit, pages) && i < |pages|
    ensures AllInRange(keys, CursorKey(CursorOf(pages, i)))
  {
    hide InRange, IsReply, IsRead, Under, Member, NoRepeats, KeysOfRows, LiveKeys;
    if i > 0 {
      WalkStep(rows, keys, limit, pages, i - 1);
      var reply := Replies(pages)[i - 1];
      ReplyUnder(keys, LiveKeys(rows, keys), CursorAt(Replies(pages), i - 1), limit, reply);
      NextInKeys(keys, reply);
    }
  }

  lemma LiveRead(rows: Rows, feed: set<Bytes>, cursor: Option<Cursor>, limit: nat, posts: seq<Post>)
    requires IsRead(rows, feed, cursor, limit, posts)
    ensures forall p | p in posts ::
      && p.id in rows && rows[p.id].deletedAt == None && p.deletedAt == None
      && p.author == rows[p.id].author && p.content == rows[p.id].content
      && 0 <= p.createdAt - rows[p.id].createdAt < 1_000
  {
    hide IsRange, Distinct, ParsedIds;
    var out :| IsRange(feed, BoundOf(CursorKey(cursor)), limit, out)
      && SameAsTable(rows, ParsedIds(out), posts) && (Distinct(ParsedIds(out)) ==> Distinct(IdsOf(posts)));
  }

  class FeedService {
    const feedCacher: FeedCacher
    const postRepo: PostCacheWrapper

    constructor (feedCacher: FeedCacher, postRepo: PostCacheWrapper)
      ensures this.feedCacher == feedCacher && this.postRepo == postRepo
    {
      this.feedCacher, this.postRepo := feedCacher, postRepo;
    }

    /** GetFromFeed. With a coherent post cache no soft-deleted post is ever returned, whatever
        members the feed still holds. */
    method GetFromFeed(user: Uuid, cursor: Option<Cursor>, limit: nat, feedUp: bool, cacheUp: bool, dbUp: bool, pipeline: Pipeline)
      returns (r: Option<(seq<Post>, Option<Cursor>)>)
      requires RowsOk(postRepo.postRepo.db.rows)
      modifies postRepo.postCache
      ensures r.Some? && old(Coherent(postRepo.postRepo.db.rows, postRepo.postCache.entries)) ==>
        && (forall p | p in r.value.0 ::
              && p.id in postRepo.postRepo.db.rows
              && var row := postRepo.postRepo.db.rows[p.id];
                 row.deletedAt == None && p.deletedAt == None && p.author == row.author && p.content == row.content
                 && 0 <= p.createdAt - row.createdAt < 1_000)
        && IsRead(postRepo.postRepo.db.rows, FeedOf(feedCacher.feeds, user), cursor, limit, r.value.0)
        && exists found :: IsReadFrom(postRepo.postRepo.db.rows, FeedOf(feedCacher.feeds, user), cursor, limit,
             Source(old(postRepo.postCache.entries), cacheUp, found), r.value.0)
      ensures r.Some? ==> r.value.1 == if |r.value.0| == 0 then None
        else Some(Cursor(r.value.0[|r.value.0| - 1].id, r.value.0[|r.value.0| - 1].createdAt))
      ensures feedUp && dbUp ==> r.Some?
      ensures r.Some? ==> feedUp
      ensures old(Coherent(postRepo.postRepo.db.rows, postRepo.postCache.entries)) ==>
        Coherent(postRepo.postRepo.db.rows, postRepo.postCache.entries)
    {
      hide IsFound, IsRange, SameAsTable, Coherent, Distinct, PostCache.After;
      ghost var rows, entries := postRepo.postRepo.db.rows, postRepo.postCache.entries;
      ghost var feed := FeedOf(feedCacher.feeds, user);
      var postIds := feedCacher.GetFeedPostsIds(user, cursor, limit, feedUp);
      if postIds == None {
        return None;
      }
      var posts := postRepo.GetPostsWithIds(postIds.value, cacheUp, dbUp, pipeline);
      if posts == None {
        return None;
      }
      if Coherent(rows, entries) {
        ghost var out :| IsRange(feed, BoundOf(CursorKey(cursor)), limit, out) && postIds.value == ParsedIds(out);
        ghost var found :| IsFound(rows, Missed(entries, postIds.value, cacheUp), found)
          && posts.value == (if cacheUp then Hits(entries, postIds.value) else []) + found;
        assert Gives(rows, Source(entries, cacheUp, found), ParsedIds(out), posts.value);
        assert IsReadFrom(rows, feed, cursor, limit, Source(entries, cacheUp, found), posts.value);
        ReadFromIsRead(rows, feed, cursor, limit, Source(entries, cacheUp, found), posts.value);
        LiveRead(rows, feed, cursor, limit, posts.value);
      }
      return Some((posts.value, MakeNewCursor(posts.value)));
    }
  }
}
