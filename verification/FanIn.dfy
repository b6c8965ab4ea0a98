/** Fan-out on write against its reference: merging, at read time, the live posts of all
    followed authors. */
module FanIn {
  import opened Model
  import opened Lex
  import opened FeedMembers
  import opened Paging
  import opened Outbox
  import opened Settled
  import opened FeedStore

  /** The merge a fan-in reader would compute. */
  function LiveMerge(s: State, user: Uuid): set<Key> {
    set p | p in s.rows && Subscription(user, s.rows[p].author) in s.table && s.rows[p].Live() ::
      PostKey(s.rows[p].createdAt, p)
  }

  ghost predicate Drained(s: State) {
    forall id | id in s.outbox :: s.outbox[id].processed
  }

  /** Each of the user's soft-deleted followed posts has a deleted event. */
  ghost predicate DeletionsQueued(s: State, user: Uuid) {
    forall p | p in s.rows && Follows(s, user, p) && !s.rows[p].Live() :: HasDeleted(s.outbox, p)
  }

  ghost predicate FixedTable(states: seq<State>) {
    forall i | 0 <= i < |states| :: states[i].table == states[0].table
  }

  lemma {:induction false} RowsStay(states: seq<State>, actions: seq<Action>, limit: nat, i: nat, n: nat, post: Uuid)
    requires Run(states, actions, limit) && i <= n <= |actions| && post in states[i].rows
    ensures post in states[n].rows && states[n].rows[post].author == states[i].rows[post].author
    decreases n
  {
    if i < n { RowsStay(states, actions, limit, i, n - 1, post); }
  }

  /** With a fixed follower relation following now is following throughout. */
  lemma FixedFollowing(states: seq<State>, actions: seq<Action>, limit: nat, user: Uuid, post: Uuid)
    requires Run(states, actions, limit) && FixedTable(states) && post in states[|actions|].rows
    ensures Follows(states[|actions|], user, post) ==> FollowsThroughout(states, user, post)
    ensures !Follows(states[|actions|], user, post) ==> NeverFollows(states, user, post)
  {
    forall i | 0 <= i < |states| && post in states[i].rows
      ensures Follows(states[i], user, post) <==> Follows(states[|actions|], user, post)
    {
      RowsStay(states, actions, limit, i, |actions|, post);
    }
  }

  /** A drained feed holds exactly the followed posts without a deleted event. */
  lemma DrainedFeed(states: seq<State>, actions: seq<Action>, limit: nat, user: Uuid, post: Uuid)
    requires Run(states, actions, limit) && Init(states[0]) && FixedTable(states)
    requires Drained(states[|actions|]) && post in states[|actions|].rows
    ensures var s := states[|actions|];
      Has(s, user, post) <==> Follows(s, user, post) && !HasDeleted(s.outbox, post)
  {
    var s := states[|actions|];
    FixedFollowing(states, actions, limit, user, post);
    if Follows(s, user, post) {
      SettledFeeds(states, actions, limit, user, post);
    } else {
      NeverInFeed(states, actions, limit, user, post, |actions|);
    }
  }

  /** In a drained system with a fixed follower relation the feed is the fan-in merge if and
      only if every soft delete of a followed post queued its event. */
  lemma FanOutIsFanIn(states: seq<State>, actions: seq<Action>, limit: nat, user: Uuid)
    requires Run(states, actions, limit) && Init(states[0]) && FixedTable(states)
    requires Drained(states[|actions|])
    ensures var s := states[|actions|];
      FeedOf(s.feeds, user) == Members(LiveMerge(s, user)) <==> DeletionsQueued(s, user)
  {
    var s := states[|actions|];
    Reachable(states, actions, limit, |actions|);
    forall p | p in s.rows
      ensures Has(s, user, p) <==> Follows(s, user, p) && !HasDeleted(s.outbox, p)
      ensures HasDeleted(s.outbox, p) ==> !s.rows[p].Live()
      ensures MemberIn(s.rows, p) in Members(LiveMerge(s, user)) <==> Follows(s, user, p) && s.rows[p].Live()
    {
      DrainedFeed(states, actions, limit, user, p);
      DeletedEventsOfDeadRows(s, p);
      MergeMember(s, user, p);
    }
    if DeletionsQueued(s, user) {
      FeedsAgree(s, user);
    } else {
      var p :| p in s.rows && Follows(s, user, p) && !s.rows[p].Live() && !HasDeleted(s.outbox, p);
      assert Has(s, user, p);
    }
  }

  lemma DeletedEventsOfDeadRows(s: State, post: Uuid)
    requires Inv(s) && post in s.rows
    ensures HasDeleted(s.outbox, post) ==> !s.rows[post].Live()
  {
    if HasDeleted(s.outbox, post) {
      var id :| IsDeleted(s.outbox, id, post);
      assert OfRow(s.rows, s.outbox[id]);
    }
  }

  lemma MergeMember(s: State, user: Uuid, post: Uuid)
    requires Inv(s) && post in s.rows
    ensures MemberIn(s.rows, post) in Members(LiveMerge(s, user)) <==> Follows(s, user, post) && s.rows[post].Live()
  {
    assert RowOk(s.rows, post);
    var k := PostKey(s.rows[post].createdAt, post);
    assert MemberIn(s.rows, post) == Member(k);
    if Member(k) in Members(LiveMerge(s, user)) {
      var j :| j in LiveMerge(s, user) && Member(j) == Member(k);
      MemberInjective(j, k);
      assert k in LiveMerge(s, user);
    }
    if Follows(s, user, post) && s.rows[post].Live() {
      assert k in LiveMerge(s, user);
    }
  }

  lemma FeedsAgree(s: State, user: Uuid)
    requires Inv(s) && Sound(s)
    requires forall p | p in s.rows :: Has(s, user, p) <==> MemberIn(s.rows, p) in Members(LiveMerge(s, user))
    ensures FeedOf(s.feeds, user) == Members(LiveMerge(s, user))
  {
    forall m | m in FeedOf(s.feeds, user) ensures m in Members(LiveMerge(s, user)) {
      assert RowMember(s.rows, m);
      var p :| p in s.rows && m == MemberIn(s.rows, p);
      assert Has(s, user, p);
    }
    forall m | m in Members(LiveMerge(s, user)) ensures m in FeedOf(s.feeds, user) {
      var k :| k in LiveMerge(s, user) && m == Member(k);
      assert RowOk(s.rows, k.id) && m == MemberIn(s.rows, k.id);
      assert Has(s, user, k.id);
    }
  }

  /** So a page of the feed is the page of the merge: the newest `limit` live posts of the
      followed authors strictly below the cursor, newest first. */
  lemma FeedPageIsMergePage(states: seq<State>, actions: seq<Action>, batchLimit: nat, user: Uuid,
                            cursor: Option<Cursor>, limit: nat, out: seq<Bytes>)
    requires Run(states, actions, batchLimit) && Init(states[0]) && FixedTable(states)
    requires var s := states[|actions|];
      && Drained(s) && DeletionsQueued(s, user)
      && AllInRange(LiveMerge(s, user), CursorKey(cursor))
      && IsRange(FeedOf(s.feeds, user), BoundOf(CursorKey(cursor)), limit, out)
    ensures ParsedIds(out) == KeyIds(Page(LiveMerge(states[|actions|], user), CursorKey(cursor), limit))
  {
    FanOutIsFanIn(states, actions, batchLimit, user);
    FeedPage(LiveMerge(states[|actions|], user), CursorKey(cursor), limit, out);
  }
}
