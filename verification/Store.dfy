/** The Postgres tables and the outbox queries. */
module Store {
  import opened Model
  import opened Outbox

  /** How a statement ends: done, not done, or done although an error is reported. */
  datatype Answer = Acked | Refused | Unacked {
    predicate Applied() { !Refused? }
  }

  predicate Keyed(outbox: Events) {
    forall id | id in outbox :: outbox[id].id == id
  }

  function PendingIds(outbox: Events): set<Uuid> {
    set id | id in outbox && !outbox[id].processed
  }

  predicate IsOldest(outbox: Events, ids: set<Uuid>, id: Uuid) {
    && id in ids && id in outbox
    && forall j | j in ids && j in outbox :: outbox[id].createdAt <= outbox[j].createdAt
  }

  lemma {:induction false} OldestExists(outbox: Events, ids: set<Uuid>)
    requires ids != {} && ids <= outbox.Keys
    ensures exists id :: IsOldest(outbox, ids, id)
    decreases ids
  {
    var id :| id in ids;
    var rest := ids - {id};
    assert ids == rest + {id};
    if rest == {} {
      assert IsOldest(outbox, ids, id);
    } else {
      OldestExists(outbox, rest);
      var next :| IsOldest(outbox, rest, next);
      if outbox[id].createdAt <= outbox[next].createdAt {
        assert IsOldest(outbox, ids, id);
      } else {
        assert IsOldest(outbox, ids, next);
      }
    }
  }

  function SetOf(ids: seq<Uuid>): (s: set<Uuid>)
    ensures forall id: Uuid :: id in s <==> id in ids
  {
    set id | id in ids
  }

  // ----- Reading a batch event by event ----------------------------------------------------

  /** Of the pending events, batch has the oldest, in order, and rest has the others. */
  ghost predicate Picked(outbox: Events, rest: set<Uuid>, batch: seq<Event>) {
    && rest <= PendingIds(outbox)
    && (forall i | 0 <= i < |batch| :: IsPending(outbox, batch[i]) && batch[i].id !in rest)
    && (forall i, j | 0 <= i < j < |batch| :: batch[i].id != batch[j].id && batch[i].createdAt <= batch[j].createdAt)
    && (forall i, id | 0 <= i < |batch| && id in rest :: batch[i].createdAt <= outbox[id].createdAt)
    && (forall id | id in PendingIds(outbox) :: id in rest || outbox[id] in batch)
  }

  lemma NonePicked(outbox: Events)
    ensures Picked(outbox, PendingIds(outbox), [])
  {
  }

  lemma PickNext(outbox: Events, rest: set<Uuid>, batch: seq<Event>, id: Uuid)
    requires Keyed(outbox) && Picked(outbox, rest, batch) && IsOldest(outbox, rest, id)
    ensures Picked(outbox, rest - {id}, batch + [outbox[id]])
  {
    var longer := batch + [outbox[id]];
    assert longer[|batch|] == outbox[id];
    forall j | j in PendingIds(outbox) ensures j in rest - {id} || outbox[j] in longer {
      if j !in rest { assert outbox[j] in batch; }
    }
  }

  lemma PickedBatch(outbox: Events, rest: set<Uuid>, batch: seq<Event>, limit: nat)
    requires Picked(outbox, rest, batch) && |batch| <= limit && (|batch| == limit || rest == {})
    ensures IsBatch(outbox, limit, batch)
  {
    forall id | id in outbox && !outbox[id].processed && outbox[id] !in batch
      ensures |batch| == limit && forall i | 0 <= i < |batch| :: batch[i].createdAt <= outbox[id].createdAt
    {
      assert id in PendingIds(outbox);
    }
  }

  lemma {:induction false} BatchFrom(outbox: Events, rest: set<Uuid>, picked: seq<Event>, limit: nat) returns (batch: seq<Event>)
    requires Keyed(outbox) && Picked(outbox, rest, picked) && |picked| <= limit
    ensures IsBatch(outbox, limit, batch)
    decreases rest
  {
    hide IsBatch;
    if |picked| == limit || rest == {} {
      PickedBatch(outbox, rest, picked, limit);
      batch := picked;
    } else {
      OldestExists(outbox, rest);
      var id :| IsOldest(outbox, rest, id);
      PickNext(outbox, rest, picked, id);
      batch := BatchFrom(outbox, rest - {id}, picked + [outbox[id]], limit);
    }
  }

  // ----- Statements of others --------------------------------------------------------------

  /** Every event of before is still there as it was, and new ones are pending. */
  predicate Appended(before: Events, now: Events) {
    && Keyed(now)
    && (forall id | id in before :: id in now && now[id] == before[id])
    && (forall id | id in now && id !in before :: !now[id].processed)
  }

  datatype Tables = Tables(rows: Rows, outbox: Events, table: set<Subscription>) {
    function At(feeds: Feeds, c: Consumer): State {
      State(rows, outbox, table, feeds, c)
    }
  }

  /** Steps of the system lead from one content of the tables to another, whatever the feeds
      hold and wherever the consumer is. */
  ghost predicate Leading(a: Tables, b: Tables) {
    forall feeds, c, limit: nat :: Leads(a.At(feeds, c), b.At(feeds, c), limit)
  }

  lemma LeadingStay(a: Tables)
    ensures Leading(a, a)
  {
    forall feeds, c, limit: nat ensures Leads(a.At(feeds, c), a.At(feeds, c), limit) {
      LeadsStay(a.At(feeds, c), limit);
    }
  }

  lemma LeadingJoin(a: Tables, b: Tables, c: Tables)
    requires Leading(a, b) && Leading(b, c)
    ensures Leading(a, c)
  {
    forall feeds, at, limit: nat ensures Leads(a.At(feeds, at), c.At(feeds, at), limit) {
      LeadsJoin(a.At(feeds, at), b.At(feeds, at), c.At(feeds, at), limit);
    }
  }

  /** The constraints of the tables, and the order of a client's own statements. */
  predicate Admits(t: Tables, call: Action) {
    match call
    case Produce(post, event, _) => post.id !in t.rows && event !in t.outbox
    case Retract(payload, _) => ReadBack(t.rows, payload)
    case RetractQueued(payload, _, event, at) =>
      ReadBack(t.rows, payload) && event !in t.outbox && AfterAdded(t.outbox, payload.id, at)
    case Subscribe(_) => true
    case Unsubscribe(_) => true
    case _ => false
  }

  function Served(t: Tables, call: Action): Tables {
    if !Admits(t, call) then t else
    match call
    case Produce(post, event, at) =>
      t.(rows := t.rows[post.id := post.Stored()], outbox := t.outbox[event := Event(event, PostAdded, post, at, false)])
    case Retract(payload, removeAt) =>
      t.(rows := t.rows[payload.id := Deleted(t.rows[payload.id], removeAt)])
    case RetractQueued(payload, removeAt, event, at) =>
      t.(rows := t.rows[payload.id := Deleted(t.rows[payload.id], removeAt)],
         outbox := t.outbox[event := Event(event, PostDeleted, payload, at, false)])
    case Subscribe(sub) => t.(table := t.table + {sub})
    case Unsubscribe(sub) => t.(table := t.table - {sub})
  }

  /** What each call of a producer or a follower commits. */
  lemma ServedEffects(t: Tables, f: Subscription, post: Post, payload: Post, removeAt: Time, event: Uuid, at: Time)
    ensures Served(t, Subscribe(f)) == t.(table := t.table + {f})
    ensures Served(t, Unsubscribe(f)) == t.(table := t.table - {f})
    ensures post.id !in t.rows && event !in t.outbox ==>
      Served(t, Produce(post, event, at))
      == t.(rows := t.rows[post.id := post.Stored()], outbox := t.outbox[event := Event(event, PostAdded, post, at, false)])
    ensures payload.id in t.rows && payload.author == t.rows[payload.id].author && payload.createdAt == t.rows[payload.id].createdAt ==>
      var deleted := t.(rows := t.rows[payload.id := t.rows[payload.id].(deletedAt := Some(StoredTime(removeAt)))]);
      && Served(t, Retract(payload, removeAt)) == deleted
      && (event !in t.outbox
          && (forall id | id in t.outbox && t.outbox[id].kind == PostAdded && t.outbox[id].post.id == payload.id :: t.outbox[id].createdAt < at)
          ==> Served(t, RetractQueued(payload, removeAt, event, at)) ==
                deleted.(outbox := t.outbox[event := Event(event, PostDeleted, payload, at, false)]))
  {
  }

  function ServedAll(t: Tables, calls: seq<Action>): Tables {
    if |calls| == 0 then t else Served(ServedAll(t, calls[..|calls| - 1]), calls[|calls| - 1])
  }

  lemma ServedLeads(t: Tables, call: Action)
    ensures Leading(t, Served(t, call))
  {
    LeadingStay(t);
    if Admits(t, call) {
      forall feeds, c, limit: nat ensures Leads(t.At(feeds, c), Served(t, call).At(feeds, c), limit) {
        LeadsStep(t.At(feeds, c), t.At(feeds, c), call, limit);
      }
    }
  }

  class Database {
    var rows: Rows
    var outbox: Events
    var table: set<Subscription>

    constructor ()
      ensures rows == map[] && outbox == map[] && table == {}
    {
      rows, outbox, table := map[], map[], {};
    }

    /** SELECT ... WHERE processed_at IS NULL ORDER BY created_at LIMIT limit */
    method GetOutboxEvents(limit: nat, up: bool) returns (r: Option<seq<Event>>)
      requires Keyed(outbox)
      ensures r.Some? <==> up
      ensures up ==> IsBatch(outbox, limit, r.value)
    {
      if !up {
        return None;
      }
      hide Picked, IsBatch;
      var batch: seq<Event> := [];
      var rest := PendingIds(outbox);
      assert Picked(outbox, rest, batch) by { NonePicked(outbox); }
      while |batch| < limit && rest != {}
        invariant |batch| <= limit && rest <= outbox.Keys
        invariant Picked(outbox, rest, batch)
        decreases rest
      {
        OldestExists(outbox, rest);
        var id :| IsOldest(outbox, rest, id);
        PickNext(outbox, rest, batch, id);
        rest := rest - {id};
        batch := batch + [outbox[id]];
      }
      PickedBatch(outbox, rest, batch, limit);
      return Some(batch);
    }

    /** UPDATE outbox SET processed_at = now() WHERE id = ANY(ids) */
    method SetEventsAsProcessed(ids: seq<Uuid>, answer: Answer) returns (ok: bool)
      modifies this`outbox
      ensures ok <==> answer.Acked?
      ensures outbox == if answer.Applied() then Marked(old(outbox), SetOf(ids)) else old(outbox)
    {
      if answer.Applied() {
        outbox := Marked(outbox, SetOf(ids));
      }
      return answer.Acked?;
    }

    /** SELECT sub_id FROM subscriber_author WHERE auth_id = author */
    method GetSubs(author: Uuid, up: bool) returns (r: Option<seq<Uuid>>)
      ensures r.Some? <==> up
      ensures up ==> SetOf(r.value) == SubsOf(table, author)
    {
      if !up {
        return None;
      }
      var rest, subs: seq<Uuid> := SubsOf(table, author), [];
      while rest != {}
        invariant SetOf(subs) + rest == SubsOf(table, author)
        decreases rest
      {
        var u :| u in rest;
        rest := rest - {u};
        subs := subs + [u];
      }
      return Some(subs);
    }

    function Now(): Tables
      reads this
    {
      Tables(rows, outbox, table)
    }

    /** What other clients commit between two statements of the consumer: posts added and
        deleted, users subscribed and unsubscribed. */
    method Serve(calls: seq<Action>)
      requires Keyed(outbox)
      modifies this
      ensures Appended(old(outbox), outbox)
      ensures Now() == ServedAll(old(Now()), calls)
      ensures Leading(old(Now()), Now())
    {
      hide Leading;
      LeadingStay(Now());
      for i := 0 to |calls|
        invariant Appended(old(outbox), outbox)
        invariant Now() == ServedAll(old(Now()), calls[..i])
        invariant Leading(old(Now()), Now())
      {
        ghost var before := Now();
        assert calls[..i + 1][..i] == calls[..i];
        ServedLeads(Now(), calls[i]);
        var next := Served(Now(), calls[i]);
        rows, outbox, table := next.rows, next.outbox, next.table;
        LeadingJoin(old(Now()), before, Now());
      }
      assert calls[..|calls|] == calls;
    }
  }
}
