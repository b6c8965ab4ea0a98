/** The outbox protocol as a system of atomic steps. Producers add and soft-delete posts,
    users subscribe and unsubscribe, one consumer fetches a batch, fans every event out to
    the author's followers and marks the batch. Any consumer step may fail and start over. */
module Outbox {
  import opened Model
  import opened Lex
  import opened FeedMembers

  type Feeds = map<Uuid, set<Bytes>>

  /** A feed that was never written is an empty sorted set. */
  function FeedOf(feeds: Feeds, user: Uuid): set<Bytes> {
    if user in feeds then feeds[user] else {}
  }

  function MemberOf(post: Post): Bytes {
    FeedMember(post.createdAt, post.id)
  }

  /** ZADD for an added post, ZREM for a deleted one. */
  function Touch(feed: set<Bytes>, kind: MessageType, member: Bytes): set<Bytes> {
    match kind
    case PostAdded => feed + {member}
    case PostDeleted => feed - {member}
  }

  /** Redis drops the key of a sorted set that becomes empty. */
  predicate Canonical(feeds: Feeds) {
    forall u | u in feeds :: feeds[u] != {}
  }

  function Touched(feeds: Feeds, users: set<Uuid>, event: Event, user: Uuid): set<Bytes> {
    if user in users then Touch(FeedOf(feeds, user), event.kind, MemberOf(event.post)) else FeedOf(feeds, user)
  }

  function FanOut(feeds: Feeds, users: set<Uuid>, event: Event): (r: Feeds)
    ensures Canonical(r)
    ensures forall u: Uuid :: FeedOf(r, u) == Touched(feeds, users, event, u)
  {
    map u | u in feeds.Keys + users && Touched(feeds, users, event, u) != {} :: Touched(feeds, users, event, u)
  }

  /** Feeds without empty sets are determined by what they hold. */
  lemma SameFeeds(f: Feeds, g: Feeds)
    requires Canonical(f) && Canonical(g)
    requires forall u: Uuid :: FeedOf(f, u) == FeedOf(g, u)
    ensures f == g
  {
    forall u: Uuid ensures u in f <==> u in g {
      assert FeedOf(f, u) == FeedOf(g, u);
    }
    forall u: Uuid | u in f ensures f[u] == g[u] {
      assert FeedOf(f, u) == FeedOf(g, u);
    }
  }

  // ----- State and steps -------------------------------------------------------------------

  /** The consumer is between cycles, or has fanned out batch[..next] and may have read the
      followers of the next event's author. */
  datatype Consumer = Idle | Working(batch: seq<Event>, next: nat, subs: Option<set<Uuid>>)

  datatype State = State(rows: map<Uuid, Post>, outbox: map<Uuid, Event>, table: set<Subscription>,
                         feeds: Feeds, consumer: Consumer)

  datatype Action =
    | Produce(post: Post, event: Uuid, at: Time)
    | Retract(payload: Post, removeAt: Time)
    | RetractQueued(payload: Post, removeAt: Time, event: Uuid, at: Time)
    | Subscribe(sub: Subscription)
    | Unsubscribe(sub: Subscription)
    | Fetch(batch: seq<Event>)
    | ReadSubs
    | Push(reached: set<Uuid>, acked: bool)
    | Fail
    | Mark

  /** What the fetch query promises: the oldest unprocessed events, at most `limit`, ties in
      any order. */
  ghost predicate IsBatch(outbox: map<Uuid, Event>, limit: nat, batch: seq<Event>) {
    && |batch| <= limit
    && (forall i | 0 <= i < |batch| :: IsPending(outbox, batch[i]))
    && (forall i, j | 0 <= i < j < |batch| :: batch[i].id != batch[j].id && batch[i].createdAt <= batch[j].createdAt)
    && (forall id | id in outbox && !outbox[id].processed && outbox[id] !in batch ::
          |batch| == limit && forall i | 0 <= i < |batch| :: batch[i].createdAt <= outbox[id].createdAt)
  }

  predicate IsPending(outbox: map<Uuid, Event>, e: Event) {
    e.id in outbox && outbox[e.id] == e && !e.processed
  }

  function Marked(outbox: map<Uuid, Event>, ids: set<Uuid>): (r: map<Uuid, Event>)
    ensures r.Keys == outbox.Keys
    ensures forall id | id in outbox :: r[id] == outbox[id].(processed := outbox[id].processed || id in ids)
  {
    map id | id in outbox :: if id in ids then outbox[id].(processed := true) else outbox[id]
  }

  function Ids(events: seq<Event>): set<Uuid> {
    set e | e in events :: e.id
  }

  /** A post as the delete request re-read it: the stored row, whatever its deleted_at. */
  predicate ReadBack(rows: map<Uuid, Post>, payload: Post) {
    && payload.id in rows
    && payload.author == rows[payload.id].author
    && payload.createdAt == rows[payload.id].createdAt
  }

  ghost predicate Enabled(s: State, a: Action, limit: nat) {
    match a
    case Produce(post, event, at) => post.id !in s.rows && event !in s.outbox
    case Retract(payload, removeAt) => ReadBack(s.rows, payload)
    // the deleting transaction began after the adding one had committed
    case RetractQueued(payload, removeAt, event, at) =>
      && ReadBack(s.rows, payload) && event !in s.outbox
      && AfterAdded(s.outbox, payload.id, at)
    case Subscribe(sub) => true
    case Unsubscribe(sub) => true
    case Fetch(batch) => s.consumer == Idle && batch != [] && IsBatch(s.outbox, limit, batch)
    case ReadSubs => s.consumer.Working? && s.consumer.next < |s.consumer.batch| && s.consumer.subs == None
    case Push(reached, acked) =>
      && s.consumer.Working? && s.consumer.next < |s.consumer.batch| && s.consumer.subs.Some?
      && reached <= s.consumer.subs.value
      && (acked ==> reached == s.consumer.subs.value)
    case Fail => s.consumer.Working?
    case Mark => s.consumer.Working? && s.consumer.next == |s.consumer.batch|
  }

  function Deleted(row: Post, removeAt: Time): Post {
    row.(deletedAt := Some(StoredTime(removeAt)))
  }

  ghost function Do(s: State, a: Action, limit: nat): State
    requires Enabled(s, a, limit)
  {
    match a
    case Produce(post, event, at) =>
      s.(rows := s.rows[post.id := post.Stored()],
         outbox := s.outbox[event := Event(event, PostAdded, post, at, false)])
    case Retract(payload, removeAt) =>
      s.(rows := s.rows[payload.id := Deleted(s.rows[payload.id], removeAt)])
    case RetractQueued(payload, removeAt, event, at) =>
      s.(rows := s.rows[payload.id := Deleted(s.rows[payload.id], removeAt)],
         outbox := s.outbox[event := Event(event, PostDeleted, payload, at, false)])
    case Subscribe(sub) => s.(table := s.table + {sub})
    case Unsubscribe(sub) => s.(table := s.table - {sub})
    case Fetch(batch) => s.(consumer := Working(batch, 0, None))
    case ReadSubs =>
      s.(consumer := s.consumer.(subs := Some(SubsOf(s.table, s.consumer.batch[s.consumer.next].post.author))))
    case Push(reached, acked) =>
      s.(feeds := FanOut(s.feeds, reached, s.consumer.batch[s.consumer.next]),
         consumer := if acked then Working(s.consumer.batch, s.consumer.next + 1, None) else Idle)
    case Fail => s.(consumer := Idle)
    case Mark => s.(outbox := Marked(s.outbox, Ids(s.consumer.batch)), consumer := Idle)
  }

  /** All that one step changes, part by part. */
  lemma StepEffects(s: State, a: Action, limit: nat)
    requires Enabled(s, a, limit)
    ensures var t := Do(s, a, limit);
      && (forall f :: f in t.table <==> a == Subscribe(f) || (f in s.table && a != Unsubscribe(f)))
      && (forall p :: p in t.rows <==> p in s.rows || (a.Produce? && p == a.post.id))
      && (forall p | p in s.rows ::
            t.rows[p] == if (a.Retract? || a.RetractQueued?) && p == a.payload.id
              then s.rows[p].(deletedAt := Some(StoredTime(a.removeAt))) else s.rows[p])
      && (forall id :: id in t.outbox <==> id in s.outbox || ((a.Produce? || a.RetractQueued?) && id == a.event))
      && (forall id | id in s.outbox ::
            t.outbox[id] == s.outbox[id].(processed := t.outbox[id].processed)
            && (t.outbox[id].processed <==> s.outbox[id].processed || (a.Mark? && exists e :: e in s.consumer.batch && e.id == id)))
      && (t.feeds != s.feeds ==> a.Push?)
    ensures a.Produce? ==>
      && Do(s, a, limit).rows[a.post.id] == a.post.Stored()
      && Do(s, a, limit).outbox[a.event] == Event(a.event, PostAdded, a.post, a.at, false)
    ensures a.RetractQueued? ==> Do(s, a, limit).outbox[a.event] == Event(a.event, PostDeleted, a.payload, a.at, false)
  {
    hide FanOut, IsBatch, AfterAdded;
  }

  ghost predicate Init(s: State) {
    s.rows == map[] && s.outbox == map[] && s.feeds == map[] && s.consumer == Idle
  }

  ghost predicate Run(states: seq<State>, actions: seq<Action>, limit: nat) {
    && |states| == |actions| + 1
    && forall i | 0 <= i < |actions| :: Enabled(states[i], actions[i], limit) && states[i + 1] == Do(states[i], actions[i], limit)
  }

  // ----- What the producers keep -----------------------------------------------------------

  type Rows = map<Uuid, Post>
  type Events = map<Uuid, Event>

  predicate OfRow(rows: Rows, e: Event) {
    && e.post.id in rows
    && e.post.author == rows[e.post.id].author
    && StoredTime(e.post.createdAt) == rows[e.post.id].createdAt
    && (e.kind == PostDeleted ==> !rows[e.post.id].Live())
  }

  predicate IsAdded(outbox: Events, id: Uuid, post: Uuid) {
    id in outbox && outbox[id].kind == PostAdded && outbox[id].post.id == post
  }

  predicate IsDeleted(outbox: Events, id: Uuid, post: Uuid) {
    id in outbox && outbox[id].kind == PostDeleted && outbox[id].post.id == post
  }

  ghost predicate HasAdded(outbox: Events, post: Uuid) {
    exists id :: IsAdded(outbox, id, post)
  }

  ghost predicate HasDeleted(outbox: Events, post: Uuid) {
    exists id :: IsDeleted(outbox, id, post)
  }

  predicate RowOk(rows: Rows, p: Uuid)
    requires p in rows
  {
    rows[p].id == p && StoredTime(rows[p].createdAt) == rows[p].createdAt
  }

  ghost predicate OneAdded(outbox: Events) {
    forall i, j | i in outbox && j in outbox && outbox[i].kind == PostAdded && outbox[j].kind == PostAdded
      && outbox[i].post.id == outbox[j].post.id :: i == j
  }

  ghost predicate AddedFirst(outbox: Events) {
    forall i, j | i in outbox && j in outbox && outbox[i].kind == PostAdded && outbox[j].kind == PostDeleted
      && outbox[i].post.id == outbox[j].post.id :: outbox[i].createdAt < outbox[j].createdAt
  }

  /** A row exists exactly when exactly one added event for it exists; deleted events refer to
      soft-deleted rows and are ordered after the added event. */
  ghost predicate Produced(rows: Rows, outbox: Events) {
    && (forall p | p in rows :: RowOk(rows, p) && HasAdded(outbox, p))
    && (forall id | id in outbox :: outbox[id].id == id && OfRow(rows, outbox[id]))
    && OneAdded(outbox)
    && AddedFirst(outbox)
  }

  lemma AddKeepsProduced(rows: Rows, outbox: Events, post: Post, event: Uuid, at: Time)
    requires Produced(rows, outbox)
    requires post.id !in rows && event !in outbox
    ensures Produced(rows[post.id := post.Stored()], outbox[event := Event(event, PostAdded, post, at, false)])
  {
    var rows', outbox' := rows[post.id := post.Stored()], outbox[event := Event(event, PostAdded, post, at, false)];
    StoredMillis(post.createdAt);
    assert IsAdded(outbox', event, post.id);
    forall p | p in rows' ensures RowOk(rows', p) && HasAdded(outbox', p) {
      if p != post.id {
        assert RowOk(rows, p);
        var id :| IsAdded(outbox, id, p);
        assert IsAdded(outbox', id, p);
      }
    }
    forall id | id in outbox' ensures outbox'[id].id == id && OfRow(rows', outbox'[id]) {
      if id != event { assert OfRow(rows, outbox[id]); }
    }
  }

  lemma DeleteKeepsProduced(rows: Rows, outbox: Events, id: Uuid, removeAt: Time)
    requires Produced(rows, outbox) && id in rows
    ensures Produced(rows[id := Deleted(rows[id], removeAt)], outbox)
  {
    var rows' := rows[id := Deleted(rows[id], removeAt)];
    forall p | p in rows' ensures RowOk(rows', p) && HasAdded(outbox, p) {
      assert RowOk(rows, p);
    }
    forall i | i in outbox ensures OfRow(rows', outbox[i]) {
      assert OfRow(rows, outbox[i]);
    }
  }

  predicate AfterAdded(outbox: Events, post: Uuid, at: Time) {
    forall id | id in outbox && outbox[id].kind == PostAdded && outbox[id].post.id == post :: outbox[id].createdAt < at
  }

  lemma QueueKeepsOrder(outbox: Events, e: Event)
    requires OneAdded(outbox) && AddedFirst(outbox)
    requires e.id !in outbox && e.kind == PostDeleted && AfterAdded(outbox, e.post.id, e.createdAt)
    ensures OneAdded(outbox[e.id := e]) && AddedFirst(outbox[e.id := e])
  {
  }

  lemma QueueKeepsProduced(rows: Rows, outbox: Events, payload: Post, event: Uuid, at: Time)
    requires Produced(rows, outbox)
    requires ReadBack(rows, payload) && !rows[payload.id].Live()
    requires event !in outbox && AfterAdded(outbox, payload.id, at)
    ensures Produced(rows, outbox[event := Event(event, PostDeleted, payload, at, false)])
  {
    hide OneAdded, AddedFirst, AfterAdded;
    var outbox' := outbox[event := Event(event, PostDeleted, payload, at, false)];
    QueueKeepsOrder(outbox, Event(event, PostDeleted, payload, at, false));
    assert RowOk(rows, payload.id);
    forall p | p in rows ensures HasAdded(outbox', p) {
      var id :| IsAdded(outbox, id, p);
      assert IsAdded(outbox', id, p);
    }
  }

  /** Marking changes nothing that rows and producers rely on. */
  lemma SamePayloads(rows: Rows, outbox: Events, outbox': Events)
    requires Produced(rows, outbox)
    requires outbox'.Keys == outbox.Keys
    requires forall id | id in outbox :: outbox'[id].(processed := outbox[id].processed) == outbox[id]
    ensures Produced(rows, outbox')
  {
    forall p | p in rows ensures HasAdded(outbox', p) {
      var id :| IsAdded(outbox, id, p);
      assert IsAdded(outbox', id, p);
    }
    forall id | id in outbox' ensures outbox'[id].id == id && OfRow(rows, outbox'[id]) {
      assert outbox[id].id == id && OfRow(rows, outbox[id]);
    }
  }

  lemma MarkKeepsProduced(rows: Rows, outbox: Events, ids: set<Uuid>)
    requires Produced(rows, outbox)
    ensures Produced(rows, Marked(outbox, ids))
  {
    SamePayloads(rows, outbox, Marked(outbox, ids));
  }

  // ----- What the consumer keeps -----------------------------------------------------------

  /** The batch in hand is still pending, each event once. */
  ghost predicate Batched(outbox: Events, batch: seq<Event>) {
    && (forall k | 0 <= k < |batch| :: IsPending(outbox, batch[k]))
    && (forall j, k | 0 <= j < k < |batch| :: batch[j].id != batch[k].id)
  }

  /** Once a deleted event is marked so is the added event of its post. */
  ghost predicate MarkedInOrder(outbox: Events) {
    forall i, j | i in outbox && j in outbox && outbox[i].kind == PostAdded && outbox[j].kind == PostDeleted
      && outbox[i].post.id == outbox[j].post.id && outbox[j].processed :: outbox[i].processed
  }

  /** An added event still pending comes before any deleted event of its post in the batch. */
  ghost predicate BatchInOrder(outbox: Events, batch: seq<Event>) {
    forall i, k | i in outbox && 0 <= k < |batch| && outbox[i].kind == PostAdded && batch[k].kind == PostDeleted
      && outbox[i].post.id == batch[k].post.id && !outbox[i].processed :: outbox[i] in batch[..k]
  }

  ghost predicate Consuming(outbox: Events, c: Consumer) {
    c.Working? ==>
      && c.next <= |c.batch|
      && (c.subs.Some? ==> c.next < |c.batch|)
      && Batched(outbox, c.batch)
      && BatchInOrder(outbox, c.batch)
  }

  ghost predicate Inv(s: State) {
    Produced(s.rows, s.outbox) && MarkedInOrder(s.outbox) && Consuming(s.outbox, s.consumer)
  }

  lemma FetchInOrder(outbox: Events, limit: nat, batch: seq<Event>)
    requires AddedFirst(outbox) && IsBatch(outbox, limit, batch)
    requires forall id | id in outbox :: outbox[id].id == id
    ensures Batched(outbox, batch) && BatchInOrder(outbox, batch)
  {
    forall i, k | i in outbox && 0 <= k < |batch| && outbox[i].kind == PostAdded && batch[k].kind == PostDeleted
      && outbox[i].post.id == batch[k].post.id && !outbox[i].processed
      ensures outbox[i] in batch[..k]
    {
      assert IsPending(outbox, batch[k]);
      assert outbox[i].createdAt < batch[k].createdAt;
      assert outbox[i] in batch;
      var j :| 0 <= j < |batch| && batch[j] == outbox[i];
      assert j < k;
      assert batch[..k][j] == outbox[i];
    }
  }

  lemma MarkInOrder(outbox: Events, batch: seq<Event>)
    requires MarkedInOrder(outbox) && Batched(outbox, batch) && BatchInOrder(outbox, batch)
    requires forall id | id in outbox :: outbox[id].id == id
    ensures MarkedInOrder(Marked(outbox, Ids(batch)))
  {
    var outbox' := Marked(outbox, Ids(batch));
    forall i, j | i in outbox' && j in outbox' && outbox'[i].kind == PostAdded && outbox'[j].kind == PostDeleted
      && outbox'[i].post.id == outbox'[j].post.id && outbox'[j].processed
      ensures outbox'[i].processed
    {
      if !outbox[j].processed && !outbox[i].processed {
        var e :| e in batch && e.id == j;
        var k :| 0 <= k < |batch| && batch[k] == e;
        assert IsPending(outbox, batch[k]);
        assert outbox[i] in batch[..k];
        assert outbox[i] in batch;
      }
    }
  }

  /** New events and rows leave the batch in hand alone. */
  lemma AppendKeepsOrder(outbox: Events, c: Consumer, e: Event)
    requires MarkedInOrder(outbox) && Consuming(outbox, c)
    requires e.id !in outbox && !e.processed
    requires e.kind == PostAdded ==> forall id | id in outbox :: outbox[id].post.id != e.post.id
    ensures MarkedInOrder(outbox[e.id := e]) && Consuming(outbox[e.id := e], c)
  {
    if c.Working? {
      forall k | 0 <= k < |c.batch| ensures IsPending(outbox[e.id := e], c.batch[k]) && c.batch[k].id != e.id {
        assert IsPending(outbox, c.batch[k]);
      }
      if e.kind == PostAdded {
        forall k | 0 <= k < |c.batch| ensures c.batch[k].post.id != e.post.id {
          assert IsPending(outbox, c.batch[k]);
        }
      }
    }
  }

  /** Every step of the system keeps the invariant. */
  lemma StepKeeps(s: State, a: Action, limit: nat)
    requires Inv(s) && Enabled(s, a, limit)
    ensures Inv(Do(s, a, limit))
  {
    match a
    case Produce(post, event, at) =>
      AddKeepsProduced(s.rows, s.outbox, post, event, at);
      assert forall id | id in s.outbox :: OfRow(s.rows, s.outbox[id]);
      AppendKeepsOrder(s.outbox, s.consumer, Event(event, PostAdded, post, at, false));
    case Retract(payload, removeAt) =>
      DeleteKeepsProduced(s.rows, s.outbox, payload.id, removeAt);
    case RetractQueued(payload, removeAt, event, at) =>
      DeleteKeepsProduced(s.rows, s.outbox, payload.id, removeAt);
      QueueKeepsProduced(s.rows[payload.id := Deleted(s.rows[payload.id], removeAt)], s.outbox, payload, event, at);
      AppendKeepsOrder(s.outbox, s.consumer, Event(event, PostDeleted, payload, at, false));
    case Fetch(batch) =>
      FetchInOrder(s.outbox, limit, batch);
    case Mark =>
      MarkKeepsProduced(s.rows, s.outbox, Ids(s.consumer.batch));
      MarkInOrder(s.outbox, s.consumer.batch);
    case _ =>
  }

  // ----- Runs of the step system between two states ----------------------------------------

  ghost predicate Leads(s: State, t: State, limit: nat) {
    exists states, actions :: Run(states, actions, limit) && states[0] == s && states[|actions|] == t
  }

  lemma LeadsStay(s: State, limit: nat)
    ensures Leads(s, s, limit)
  {
    assert Run([s], [], limit);
  }

  lemma LeadsStep(s: State, t: State, a: Action, limit: nat)
    requires Leads(s, t, limit) && Enabled(t, a, limit)
    ensures Leads(s, Do(t, a, limit), limit)
  {
    var states, actions :| Run(states, actions, limit) && states[0] == s && states[|actions|] == t;
    var states', actions' := states + [Do(t, a, limit)], actions + [a];
    forall i | 0 <= i < |actions'|
      ensures Enabled(states'[i], actions'[i], limit) && states'[i + 1] == Do(states'[i], actions'[i], limit)
    {
      if i < |actions| {
        assert Enabled(states[i], actions[i], limit) && states[i + 1] == Do(states[i], actions[i], limit);
      }
    }
    assert Run(states', actions', limit);
  }

  lemma {:induction false} LeadsOn(s: State, states: seq<State>, actions: seq<Action>, limit: nat, n: nat)
    requires Run(states, actions, limit) && n <= |actions|
    requires Leads(s, states[0], limit)
    ensures Leads(s, states[n], limit)
    decreases n
  {
    if n > 0 {
      LeadsOn(s, states, actions, limit, n - 1);
      LeadsStep(s, states[n - 1], actions[n - 1], limit);
    }
  }

  lemma LeadsJoin(s: State, t: State, u: State, limit: nat)
    requires Leads(s, t, limit) && Leads(t, u, limit)
    ensures Leads(s, u, limit)
  {
    var states, actions :| Run(states, actions, limit) && states[0] == t && states[|actions|] == u;
    LeadsOn(s, states, actions, limit, |actions|);
  }

  /** Whatever a caller's steps are, they keep the invariant of the protocol. */
  lemma LeadsKeeps(s: State, t: State, limit: nat)
    requires Leads(s, t, limit) && Inv(s)
    ensures Inv(t)
  {
    var states, actions :| Run(states, actions, limit) && states[0] == s && states[|actions|] == t;
    RunKeeps(states, actions, limit, |actions|);
  }

  lemma {:induction false} RunKeeps(states: seq<State>, actions: seq<Action>, limit: nat, n: nat)
    requires Run(states, actions, limit) && Inv(states[0]) && n <= |actions|
    ensures Inv(states[n])
    decreases n
  {
    if n > 0 {
      RunKeeps(states, actions, limit, n - 1);
      StepKeeps(states[n - 1], actions[n - 1], limit);
    }
  }
}
