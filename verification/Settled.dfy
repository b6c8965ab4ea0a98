/** What feeds hold, in every reachable state of the outbox system. */
module Settled {
  import opened Model
  import opened Lex
  import opened FeedMembers
  import opened Outbox

  ghost predicate Follows(s: State, user: Uuid, post: Uuid)
    requires post in s.rows
  {
    Subscription(user, s.rows[post].author) in s.table
  }

  function MemberIn(rows: Rows, post: Uuid): Bytes
    requires post in rows
  {
    MemberOf(rows[post])
  }

  /** The event has been fanned out, in a marked batch or in the current one. */
  predicate Done(outbox: Events, c: Consumer, id: Uuid) {
    id in outbox && (outbox[id].processed || (c.Working? && c.next <= |c.batch| && outbox[id] in c.batch[..c.next]))
  }

  predicate Fanning(c: Consumer, post: Uuid) {
    c.Working? && c.subs.Some? && c.next < |c.batch| && c.batch[c.next].post.id == post
  }

  /** For a user who follows the author all along: a fanned-out deletion keeps the member out
      of the feed, and without any deletion a fanned-out addition keeps it in. */
  ghost predicate Tracked(s: State, user: Uuid, post: Uuid) {
    post in s.rows ==>
      && (Fanning(s.consumer, post) ==> user in s.consumer.subs.value)
      && Gone(s, user, post)
      && Kept(s, user, post)
  }

  predicate Has(s: State, user: Uuid, post: Uuid)
    requires post in s.rows
  {
    MemberIn(s.rows, post) in FeedOf(s.feeds, user)
  }

  ghost predicate Gone(s: State, user: Uuid, post: Uuid)
    requires post in s.rows
  {
    forall id | IsDeleted(s.outbox, id, post) && Done(s.outbox, s.consumer, id) :: !Has(s, user, post)
  }

  ghost predicate Kept(s: State, user: Uuid, post: Uuid)
    requires post in s.rows
  {
    !HasDeleted(s.outbox, post) ==>
      forall id | IsAdded(s.outbox, id, post) && Done(s.outbox, s.consumer, id) :: Has(s, user, post)
  }

  lemma SameMember(a: Post, b: Post)
    requires StoredTime(a.createdAt) == StoredTime(b.createdAt) && a.id == b.id
    ensures MemberOf(a) == MemberOf(b)
  {
    OneMemberPerPost(a.createdAt, a.id);
    OneMemberPerPost(b.createdAt, b.id);
  }

  lemma MemberId(post: Post)
    ensures IdOf(MemberOf(post)) == Some(post.id)
  {
    MemberRoundTrip(PostKey(post.createdAt, post.id));
  }

  /** An event pushes or removes the member of its own row and of no other. */
  lemma EventMember(rows: Rows, outbox: Events, e: Event, post: Uuid)
    requires Produced(rows, outbox) && IsPending(outbox, e) && post in rows
    ensures e.post.id in rows && e.post.author == rows[e.post.id].author
    ensures MemberOf(e.post) == MemberIn(rows, e.post.id)
    ensures MemberOf(e.post) == MemberIn(rows, post) <==> e.post.id == post
  {
    assert OfRow(rows, e) && RowOk(rows, e.post.id) && RowOk(rows, post);
    SameMember(e.post, rows[e.post.id]);
    MemberId(e.post);
    MemberId(rows[post]);
  }

  /** While the added event is pending at its turn in the batch, no deletion is done. */
  lemma NoDeletionYet(s: State, post: Uuid, j: Uuid)
    requires Inv(s) && s.consumer.Working? && s.consumer.next < |s.consumer.batch|
    requires var e := s.consumer.batch[s.consumer.next]; e.kind == PostAdded && e.post.id == post
    requires IsDeleted(s.outbox, j, post)
    ensures !s.outbox[j].processed && s.outbox[j] !in s.consumer.batch[..s.consumer.next + 1]
  {
    var b, n := s.consumer.batch, s.consumer.next;
    assert IsPending(s.outbox, b[n]);
    forall k | 0 <= k < |b| && b[k] == s.outbox[j] ensures n < k {
      assert s.outbox[b[n].id] in b[..k];
      var m :| 0 <= m < k && b[m] == b[n];
    }
  }

  /** What one push does to the membership of one post. */
  lemma PushEffect(s: State, a: Action, limit: nat, user: Uuid, post: Uuid)
    requires Inv(s) && Enabled(s, a, limit) && a.Push? && post in s.rows
    ensures var e, t := s.consumer.batch[s.consumer.next], Do(s, a, limit);
      Has(t, user, post) <==> if e.post.id == post && user in a.reached then e.kind == PostAdded else Has(s, user, post)
  {
    hide FanOut, MemberOf;
    EventMember(s.rows, s.outbox, s.consumer.batch[s.consumer.next], post);
  }

  lemma PushDone(s: State, a: Action, limit: nat, id: Uuid)
    requires Inv(s) && Enabled(s, a, limit) && a.Push?
    requires Done(s.outbox, Do(s, a, limit).consumer, id)
    ensures Done(s.outbox, s.consumer, id) || (a.acked && s.outbox[id] == s.consumer.batch[s.consumer.next])
  {
    hide Produced, MarkedInOrder, BatchInOrder, FanOut, IsBatch, ReadBack, AfterAdded;
    var b, n := s.consumer.batch, s.consumer.next;
    assert b[..n + 1] == b[..n] + [b[n]];
  }

  lemma PushTracks(s: State, a: Action, limit: nat, user: Uuid, post: Uuid)
    requires Inv(s) && Enabled(s, a, limit) && a.Push?
    requires post in s.rows && Tracked(s, user, post)
    ensures Tracked(Do(s, a, limit), user, post)
  {
    var t := Do(s, a, limit);
    var e := s.consumer.batch[s.consumer.next];
    PushEffect(s, a, limit, user, post);
    assert IsPending(s.outbox, e);
    forall id | IsDeleted(t.outbox, id, post) && Done(t.outbox, t.consumer, id) ensures !Has(t, user, post) {
      PushDone(s, a, limit, id);
      if e.post.id == post && e.kind == PostAdded {
        NoDeletionYet(s, post, id);
      }
    }
    if !HasDeleted(s.outbox, post) {
      assert !IsDeleted(s.outbox, e.id, post);
      forall id | IsAdded(t.outbox, id, post) && Done(t.outbox, t.consumer, id) ensures Has(t, user, post) {
        PushDone(s, a, limit, id);
      }
    }
  }

  /** Steps that leave the feeds alone and finish no event. */
  lemma QuietTracks(s: State, t: State, user: Uuid, post: Uuid)
    requires post in s.rows && post in t.rows && Tracked(s, user, post)
    requires t.feeds == s.feeds && MemberIn(t.rows, post) == MemberIn(s.rows, post)
    requires forall id | Done(t.outbox, t.consumer, id) :: Done(s.outbox, s.consumer, id)
    requires forall id | id in s.outbox :: id in t.outbox && t.outbox[id].kind == s.outbox[id].kind && t.outbox[id].post == s.outbox[id].post
    requires Fanning(t.consumer, post) ==> user in t.consumer.subs.value
    ensures Tracked(t, user, post)
  {
    if HasDeleted(s.outbox, post) {
      var id :| IsDeleted(s.outbox, id, post);
      assert IsDeleted(t.outbox, id, post);
    }
    forall id | IsDeleted(t.outbox, id, post) && Done(t.outbox, t.consumer, id) ensures !Has(t, user, post) {
      assert IsDeleted(s.outbox, id, post) && Done(s.outbox, s.consumer, id);
    }
    if !HasDeleted(t.outbox, post) {
      forall id | IsAdded(t.outbox, id, post) && Done(t.outbox, t.consumer, id) ensures Has(t, user, post) {
        assert IsAdded(s.outbox, id, post) && Done(s.outbox, s.consumer, id);
      }
    }
  }

  lemma MarkDone(outbox: Events, c: Consumer, id: Uuid)
    requires Consuming(outbox, c) && c.Working? && c.next == |c.batch|
    requires Done(Marked(outbox, Ids(c.batch)), Idle, id)
    ensures Done(outbox, c, id)
  {
    assert c.batch[..c.next] == c.batch;
    if !outbox[id].processed {
      var e :| e in c.batch && e.id == id;
      var k :| 0 <= k < |c.batch| && c.batch[k] == e;
      assert IsPending(outbox, c.batch[k]);
    }
  }

  lemma ReadTracks(s: State, limit: nat, user: Uuid, post: Uuid)
    requires Inv(s) && Enabled(s, ReadSubs, limit)
    requires post in s.rows && Tracked(s, user, post) && Follows(s, user, post)
    ensures Tracked(Do(s, ReadSubs, limit), user, post)
  {
    var e := s.consumer.batch[s.consumer.next];
    assert IsPending(s.outbox, e);
    EventMember(s.rows, s.outbox, e, post);
    QuietTracks(s, Do(s, ReadSubs, limit), user, post);
  }

  lemma MarkTracks(s: State, t: State, user: Uuid, post: Uuid)
    requires Consuming(s.outbox, s.consumer) && s.consumer.Working? && s.consumer.next == |s.consumer.batch|
    requires t == s.(outbox := Marked(s.outbox, Ids(s.consumer.batch)), consumer := Idle)
    requires post in s.rows && Tracked(s, user, post)
    ensures Tracked(t, user, post)
  {
    forall id | Done(t.outbox, t.consumer, id) ensures Done(s.outbox, s.consumer, id) {
      MarkDone(s.outbox, s.consumer, id);
    }
    QuietTracks(s, t, user, post);
  }

  /** New rows and events, subscriptions, and a consumer that starts over. */
  lemma OtherTracks(s: State, t: State, user: Uuid, post: Uuid)
    requires post in s.rows && post in t.rows && Tracked(s, user, post)
    requires t.feeds == s.feeds && MemberIn(t.rows, post) == MemberIn(s.rows, post)
    requires forall id | id in s.outbox :: id in t.outbox && t.outbox[id] == s.outbox[id]
    requires forall id | id in t.outbox :: t.outbox[id].id == id && (id in s.outbox || !t.outbox[id].processed)
    requires t.consumer == s.consumer || t.consumer == Idle || (t.consumer.Working? && t.consumer.next == 0 && t.consumer.subs == None)
    requires Consuming(s.outbox, s.consumer)
    ensures Tracked(t, user, post)
  {
    if s.consumer.Working? {
      assert forall k | 0 <= k < |s.consumer.batch| :: IsPending(s.outbox, s.consumer.batch[k]);
    }
    QuietTracks(s, t, user, post);
  }

  lemma ProducerStep(s: State, a: Action, limit: nat, user: Uuid, post: Uuid)
    requires Inv(s) && Enabled(s, a, limit) && (a.Produce? || a.Retract? || a.RetractQueued?)
    requires post in s.rows && Tracked(s, user, post)
    ensures Tracked(Do(s, a, limit), user, post)
  {
    hide FeedMember, FanOut, IsBatch, OneAdded, AddedFirst, MarkedInOrder, BatchInOrder;
    OtherTracks(s, Do(s, a, limit), user, post);
  }

  lemma OtherStep(s: State, a: Action, limit: nat, user: Uuid, post: Uuid)
    requires Inv(s) && Enabled(s, a, limit) && (a.Subscribe? || a.Unsubscribe? || a.Fetch? || a.Fail?)
    requires post in s.rows && Tracked(s, user, post)
    ensures Tracked(Do(s, a, limit), user, post)
  {
    OtherTracks(s, Do(s, a, limit), user, post);
  }

  lemma StoredTracks(s: State, a: Action, limit: nat, user: Uuid, post: Uuid)
    requires Inv(s) && Enabled(s, a, limit)
    requires post in s.rows && Tracked(s, user, post) && Follows(s, user, post)
    ensures Tracked(Do(s, a, limit), user, post)
  {
    match a
    case Push(_, _) => PushTracks(s, a, limit, user, post);
    case ReadSubs => ReadTracks(s, limit, user, post);
    case Mark => MarkTracks(s, Do(s, a, limit), user, post);
    case Produce(_, _, _) => ProducerStep(s, a, limit, user, post);
    case Retract(_, _) => ProducerStep(s, a, limit, user, post);
    case RetractQueued(_, _, _, _) => ProducerStep(s, a, limit, user, post);
    case _ => OtherStep(s, a, limit, user, post);
  }

  lemma StepTracks(s: State, a: Action, limit: nat, user: Uuid, post: Uuid)
    requires Inv(s) && Enabled(s, a, limit)
    requires Tracked(s, user, post)
    requires post in s.rows ==> Follows(s, user, post)
    ensures Tracked(Do(s, a, limit), user, post)
  {
    if post !in s.rows {
      NewlyTracked(s, a, limit, user, post);
    } else {
      StoredTracks(s, a, limit, user, post);
    }
  }

  /** A post that is not stored yet has no events. */
  lemma NoEvents(s: State, post: Uuid)
    requires Inv(s) && post !in s.rows
    ensures forall id | id in s.outbox :: s.outbox[id].post.id != post
    ensures s.consumer.Working? ==> forall k | 0 <= k < |s.consumer.batch| :: s.consumer.batch[k].post.id != post
  {
    assert forall id | id in s.outbox :: OfRow(s.rows, s.outbox[id]);
    if s.consumer.Working? {
      assert forall k | 0 <= k < |s.consumer.batch| :: IsPending(s.outbox, s.consumer.batch[k]);
    }
  }

  lemma NewlyTracked(s: State, a: Action, limit: nat, user: Uuid, post: Uuid)
    requires Inv(s) && Enabled(s, a, limit) && post !in s.rows
    ensures Tracked(Do(s, a, limit), user, post)
  {
    NoEvents(s, post);
    if a.Produce? && a.post.id == post {
      FirstEvent(s, Do(s, a, limit), a.event, user, post);
    }
  }

  lemma FirstEvent(s: State, t: State, event: Uuid, user: Uuid, post: Uuid)
    requires post in t.rows && event in t.outbox
    requires forall id | id in s.outbox :: s.outbox[id].post.id != post
    requires t.outbox == s.outbox[event := t.outbox[event]] && !t.outbox[event].processed && t.outbox[event].post.id == post
    requires t.outbox[event].kind == PostAdded
    requires t.consumer.Working? ==> forall k | 0 <= k < |t.consumer.batch| :: t.consumer.batch[k].post.id != post
    ensures Tracked(t, user, post)
  {
  }

  // ----- Users who never follow ------------------------------------------------------------

  ghost predicate Untouched(s: State, user: Uuid, post: Uuid) {
    && (Fanning(s.consumer, post) ==> user !in s.consumer.subs.value)
    && forall m | m in FeedOf(s.feeds, user) :: IdOf(m) != Some(post)
  }

  lemma PendingPayload(s: State, e: Event)
    requires Inv(s) && IsPending(s.outbox, e)
    ensures e.post.id in s.rows && e.post.author == s.rows[e.post.id].author
    ensures IdOf(MemberOf(e.post)) == Some(e.post.id)
  {
    EventMember(s.rows, s.outbox, e, e.post.id);
    MemberId(e.post);
  }

  lemma StepUntouched(s: State, a: Action, limit: nat, user: Uuid, post: Uuid)
    requires Inv(s) && Enabled(s, a, limit)
    requires Untouched(s, user, post)
    requires post in s.rows ==> !Follows(s, user, post)
    ensures Untouched(Do(s, a, limit), user, post)
  {
    hide MemberOf, FanOut, IdOf, IsBatch, OneAdded, AddedFirst, MarkedInOrder, BatchInOrder;
    if a.Push? || a.ReadSubs? {
      PendingPayload(s, s.consumer.batch[s.consumer.next]);
    }
  }

  // ----- Feeds hold members of rows --------------------------------------------------------

  ghost predicate RowMember(rows: Rows, m: Bytes) {
    exists p :: p in rows && m == MemberIn(rows, p)
  }

  ghost predicate Sound(s: State) {
    forall u: Uuid, m | m in FeedOf(s.feeds, u) :: RowMember(s.rows, m)
  }

  lemma RowsGrow(s: State, a: Action, limit: nat, m: Bytes)
    requires Produced(s.rows, s.outbox) && Enabled(s, a, limit) && RowMember(s.rows, m)
    ensures RowMember(Do(s, a, limit).rows, m)
  {
    hide FanOut, IsBatch, OneAdded, AddedFirst;
    var p :| p in s.rows && m == MemberIn(s.rows, p);
    assert p in Do(s, a, limit).rows && m == MemberIn(Do(s, a, limit).rows, p);
  }

  lemma StepSound(s: State, a: Action, limit: nat)
    requires Inv(s) && Enabled(s, a, limit) && Sound(s)
    ensures Sound(Do(s, a, limit))
  {
    var t := Do(s, a, limit);
    forall u: Uuid, m | m in FeedOf(t.feeds, u) ensures RowMember(t.rows, m) {
      if m in FeedOf(s.feeds, u) {
        RowsGrow(s, a, limit, m);
      } else {
        PushedMember(s, a, limit, m, u);
      }
    }
  }

  lemma PushedMember(s: State, a: Action, limit: nat, m: Bytes, user: Uuid)
    requires Inv(s) && Enabled(s, a, limit)
    requires m in FeedOf(Do(s, a, limit).feeds, user) && m !in FeedOf(s.feeds, user)
    ensures RowMember(Do(s, a, limit).rows, m)
  {
    var e := s.consumer.batch[s.consumer.next];
    assert IsPending(s.outbox, e);
    EventMember(s.rows, s.outbox, e, e.post.id);
    assert m == MemberIn(s.rows, e.post.id);
  }

  // ----- Whole runs ------------------------------------------------------------------------

  lemma {:induction false} Reachable(states: seq<State>, actions: seq<Action>, limit: nat, n: nat)
    requires Run(states, actions, limit) && Init(states[0]) && n <= |actions|
    ensures Inv(states[n]) && Sound(states[n])
    decreases n
  {
    if n > 0 {
      Reachable(states, actions, limit, n - 1);
      StepKeeps(states[n - 1], actions[n - 1], limit);
      StepSound(states[n - 1], actions[n - 1], limit);
    }
  }

  /** In every reachable state a row exists exactly when one added event for it exists, and
      posts with deleted events have soft-deleted rows. */
  lemma RowsMatchEvents(states: seq<State>, actions: seq<Action>, limit: nat, n: nat, post: Uuid)
    requires Run(states, actions, limit) && Init(states[0]) && n <= |actions|
    ensures var s := states[n];
      && (post in s.rows <==> HasAdded(s.outbox, post))
      && (forall i, j | IsAdded(s.outbox, i, post) && IsAdded(s.outbox, j, post) :: i == j)
      && (HasDeleted(s.outbox, post) ==> post in s.rows && !s.rows[post].Live())
  {
    Reachable(states, actions, limit, n);
    var s := states[n];
    if post in s.rows { assert RowOk(s.rows, post) && HasAdded(s.outbox, post); }
    assert forall id | id in s.outbox :: OfRow(s.rows, s.outbox[id]);
  }

  /** The converse of the last claim fails: any post can be soft-deleted without ever getting a
      deleted event, because the row is not updated in the transaction that queues it. */
  lemma DeletionLost(post: Post, event: Uuid, at: Time, removeAt: Time, limit: nat)
    ensures exists states, actions :: Run(states, actions, limit) && Init(states[0]) && LostIn(states[|actions|], post.id)
  {
    hide FanOut, IsBatch;
    var s0 := State(map[], map[], {}, map[], Idle);
    var add := Produce(post, event, at);
    var s1 := Do(s0, add, limit);
    var retract := Retract(s1.rows[post.id], removeAt);
    var s2 := Do(s1, retract, limit);
    assert LostIn(s2, post.id);
    assert Run([s0, s1, s2], [add, retract], limit);
    assert [s0, s1, s2][|[add, retract]|] == s2;
  }

  ghost predicate LostIn(s: State, post: Uuid) {
    post in s.rows && !s.rows[post].Live() && !HasDeleted(s.outbox, post)
  }

  ghost predicate FollowsThroughout(states: seq<State>, user: Uuid, post: Uuid) {
    forall i | 0 <= i < |states| && post in states[i].rows :: Follows(states[i], user, post)
  }

  ghost predicate NeverFollows(states: seq<State>, user: Uuid, post: Uuid) {
    forall i | 0 <= i < |states| && post in states[i].rows :: !Follows(states[i], user, post)
  }

  lemma {:induction false} TrackedThroughout(states: seq<State>, actions: seq<Action>, limit: nat, user: Uuid, post: Uuid, n: nat)
    requires Run(states, actions, limit) && Init(states[0]) && n <= |actions|
    requires FollowsThroughout(states, user, post)
    ensures Tracked(states[n], user, post)
    decreases n
  {
    if n > 0 {
      TrackedThroughout(states, actions, limit, user, post, n - 1);
      Reachable(states, actions, limit, n - 1);
      StepTracks(states[n - 1], actions[n - 1], limit, user, post);
    }
  }

  /** No unmarked event of the post is left. */
  ghost predicate IsSettled(s: State, post: Uuid) {
    forall id | id in s.outbox && s.outbox[id].post.id == post :: s.outbox[id].processed
  }

  /** In every reachable state, whatever failed and however steps interleaved: once a post has
      no pending event, a user who followed its author all along has it in the feed exactly
      when no deletion of it was ever queued. */
  lemma SettledFeeds(states: seq<State>, actions: seq<Action>, limit: nat, user: Uuid, post: Uuid)
    requires Run(states, actions, limit) && Init(states[0])
    requires FollowsThroughout(states, user, post)
    requires var s := states[|actions|]; post in s.rows && IsSettled(s, post)
    ensures var s := states[|actions|];
      Has(s, user, post) <==> !HasDeleted(s.outbox, post)
    ensures var s := states[|actions|];
      FeedMember(s.rows[post].createdAt, post) in FeedOf(s.feeds, user)
      <==> !exists id :: id in s.outbox && s.outbox[id].kind == PostDeleted && s.outbox[id].post.id == post
  {
    hide FeedMember;
    var s := states[|actions|];
    Reachable(states, actions, limit, |actions|);
    TrackedThroughout(states, actions, limit, user, post, |actions|);
    assert RowOk(s.rows, post) && HasAdded(s.outbox, post);
    assert forall id | id in s.outbox && s.outbox[id].kind == PostDeleted && s.outbox[id].post.id == post :: IsDeleted(s.outbox, id, post);
    if HasDeleted(s.outbox, post) {
      var id :| IsDeleted(s.outbox, id, post);
      assert Done(s.outbox, s.consumer, id);
    } else {
      var id :| IsAdded(s.outbox, id, post);
      assert Done(s.outbox, s.consumer, id);
    }
  }

  /** A user who never follows the author never has the post in the feed. */
  lemma {:induction false} NeverInFeed(states: seq<State>, actions: seq<Action>, limit: nat, user: Uuid, post: Uuid, n: nat)
    requires Run(states, actions, limit) && Init(states[0]) && n <= |actions|
    requires NeverFollows(states, user, post)
    ensures Untouched(states[n], user, post)
    ensures post in states[n].rows ==> !Has(states[n], user, post)
    ensures post in states[n].rows ==> FeedMember(states[n].rows[post].createdAt, post) !in FeedOf(states[n].feeds, user)
    decreases n
  {
    hide Untouched, Has, Enabled, Do, Init, FeedMember;
    if n > 0 {
      NeverInFeed(states, actions, limit, user, post, n - 1);
      Reachable(states, actions, limit, n - 1);
      StepUntouched(states[n - 1], actions[n - 1], limit, user, post);
    } else {
      UntouchedAtFirst(states[0], user, post);
    }
    Reachable(states, actions, limit, n);
    if post in states[n].rows {
      UntouchedNotHeld(states[n], user, post);
    }
  }

  lemma UntouchedAtFirst(s: State, user: Uuid, post: Uuid)
    requires Init(s)
    ensures Untouched(s, user, post)
  {
  }

  lemma UntouchedNotHeld(s: State, user: Uuid, post: Uuid)
    requires Inv(s) && post in s.rows && Untouched(s, user, post)
    ensures !Has(s, user, post)
    ensures FeedMember(s.rows[post].createdAt, post) !in FeedOf(s.feeds, user)
  {
    assert RowOk(s.rows, post);
    MemberId(s.rows[post]);
  }
}
