/** How fast, and in which order, an undisturbed consumer drains the outbox. */
module Drain {
  import opened Model
  import opened Counting
  import opened Outbox
  import opened Replay
  import opened Store
  import opened Processor

  /** Cycles that find something to fetch, meet no fault and no producer. */
  ghost predicate DrainRun(states: seq<State>, batches: seq<seq<Event>>, limit: nat) {
    && |states| == |batches| + 1
    && forall i | 0 <= i < |batches| ::
         && batches[i] != [] && IsBatch(states[i].outbox, limit, batches[i])
         && states[i + 1] == Cycle(states[i], batches[i])
  }

  lemma {:induction false} DistinctIds(batch: seq<Event>)
    requires forall i, j | 0 <= i < j < |batch| :: batch[i].id != batch[j].id
    ensures |Ids(batch)| == |batch|
  {
    if |batch| > 0 {
      var n := |batch| - 1;
      DistinctIds(batch[..n]);
      assert Ids(batch) == Ids(batch[..n]) + {batch[n].id};
      assert batch[n].id !in Ids(batch[..n]);
    }
  }

  /** A batch takes everything that is pending, up to the limit. */
  lemma BatchTakes(outbox: Events, limit: nat, batch: seq<Event>)
    requires Keyed(outbox) && IsBatch(outbox, limit, batch)
    ensures Ids(batch) <= PendingIds(outbox) && |Ids(batch)| == |batch|
    ensures |batch| == Taken(|PendingIds(outbox)|, limit)
  {
    DistinctIds(batch);
    forall id | id in Ids(batch) ensures id in PendingIds(outbox) {
      var e :| e in batch && e.id == id;
      var i :| 0 <= i < |batch| && batch[i] == e;
      assert IsPending(outbox, batch[i]);
    }
    var rest := PendingIds(outbox) - Ids(batch);
    assert |PendingIds(outbox)| == |rest| + |batch|;
    if rest != {} {
      var id :| id in rest;
      assert outbox[id] !in batch;
    }
  }

  function Taken(n: nat, limit: nat): nat {
    if n <= limit then n else limit
  }

  lemma MarkedPending(outbox: Events, ids: set<Uuid>)
    requires Keyed(outbox)
    ensures Keyed(Marked(outbox, ids))
    ensures PendingIds(Marked(outbox, ids)) == PendingIds(outbox) - ids
  {
  }

  lemma CycleCount(s: State, batch: seq<Event>, limit: nat)
    requires limit >= 1 && Keyed(s.outbox) && batch != [] && IsBatch(s.outbox, limit, batch)
    ensures Keyed(Cycle(s, batch).outbox)
    ensures Calls(|PendingIds(s.outbox)|, limit) == 1 + Calls(|PendingIds(Cycle(s, batch).outbox)|, limit)
  {
    BatchTakes(s.outbox, limit, batch);
    MarkedPending(s.outbox, Ids(batch));
    assert |PendingIds(s.outbox) - Ids(batch)| == |PendingIds(s.outbox)| - |batch|;
  }

  lemma {:induction false} CyclesCount(states: seq<State>, batches: seq<seq<Event>>, limit: nat, n: nat)
    requires limit >= 1 && DrainRun(states, batches, limit) && Keyed(states[0].outbox) && n <= |batches|
    ensures Keyed(states[n].outbox)
    ensures Calls(|PendingIds(states[0].outbox)|, limit) == n + Calls(|PendingIds(states[n].outbox)|, limit)
    decreases n
  {
    if n > 0 {
      CyclesCount(states, batches, limit, n - 1);
      CycleCount(states[n - 1], batches[n - 1], limit);
    }
  }

  lemma NothingPending(outbox: Events, limit: nat)
    requires limit >= 1 && Keyed(outbox)
    ensures IsBatch(outbox, limit, []) <==> PendingIds(outbox) == {}
  {
    if PendingIds(outbox) == {} {
      forall id | id in outbox ensures outbox[id].processed {
        assert id !in PendingIds(outbox);
      }
    } else {
      var id :| id in PendingIds(outbox);
      assert outbox[id] !in [];
    }
  }

  /** n pending events take exactly ceil(n / limit) cycles: the fetch after that many cycles,
      and no earlier one, finds nothing. */
  lemma DrainBound(states: seq<State>, batches: seq<seq<Event>>, limit: nat)
    requires limit >= 1 && DrainRun(states, batches, limit) && Keyed(states[0].outbox)
    ensures var n := CeilDiv(|PendingIds(states[0].outbox)|, limit);
      |batches| <= n && (IsBatch(states[|batches|].outbox, limit, []) <==> |batches| == n)
  {
    var last := states[|batches|].outbox;
    CyclesCount(states, batches, limit, |batches|);
    CallsCount(|PendingIds(states[0].outbox)|, limit);
    NothingPending(last, limit);
  }

  /** There is always such a run to the end. */
  lemma {:induction false} DrainExists(s: State, limit: nat) returns (states: seq<State>, batches: seq<seq<Event>>)
    requires limit >= 1 && Keyed(s.outbox)
    ensures DrainRun(states, batches, limit) && states[0] == s
    ensures |batches| == CeilDiv(|PendingIds(s.outbox)|, limit)
    decreases |PendingIds(s.outbox)|
  {
    hide IsBatch, Cycle;
    NothingPending(s.outbox, limit);
    CallsCount(|PendingIds(s.outbox)|, limit);
    if PendingIds(s.outbox) == {} {
      states, batches := [s], [];
    } else {
      NonePicked(s.outbox);
      var batch := BatchFrom(s.outbox, PendingIds(s.outbox), [], limit);
      FewerPending(s, batch, limit);
      var laterStates, laterBatches := DrainExists(Cycle(s, batch), limit);
      CycleCount(s, batch, limit);
      CallsCount(|PendingIds(Cycle(s, batch).outbox)|, limit);
      states, batches := [s] + laterStates, [batch] + laterBatches;
    }
  }

  lemma FewerPending(s: State, batch: seq<Event>, limit: nat)
    requires limit >= 1 && Keyed(s.outbox) && batch != [] && IsBatch(s.outbox, limit, batch)
    ensures Keyed(Cycle(s, batch).outbox)
    ensures |PendingIds(Cycle(s, batch).outbox)| < |PendingIds(s.outbox)|
  {
    BatchTakes(s.outbox, limit, batch);
    MarkedPending(s.outbox, Ids(batch));
    assert |PendingIds(s.outbox) - Ids(batch)| == |PendingIds(s.outbox)| - |batch|;
  }

  // ----- Order -----------------------------------------------------------------------------

  function Flat(batches: seq<seq<Event>>): seq<Event> {
    if |batches| == 0 then [] else Flat(batches[..|batches| - 1]) + batches[|batches| - 1]
  }

  /** In creation order, each event once. */
  predicate Ordered(events: seq<Event>) {
    forall i, j | 0 <= i < j < |events| :: events[i].id != events[j].id && events[i].createdAt <= events[j].createdAt
  }

  /** The events sent so far are the oldest ones of the start, the others are still pending. */
  ghost predicate SentSoFar(start: Events, now: Events, sent: seq<Event>) {
    && Keyed(now) && Ordered(sent)
    && (forall e | e in sent :: IsPending(start, e))
    && PendingIds(now) == PendingIds(start) - Ids(sent)
    && (forall id | id in PendingIds(now) :: id in start && now[id] == start[id])
    && (forall e, id | e in sent && id in PendingIds(now) :: e.createdAt <= now[id].createdAt)
  }

  lemma OrderedJoin(a: seq<Event>, b: seq<Event>)
    requires Ordered(a) && Ordered(b)
    requires forall x, y | x in a && y in b :: x.id != y.id && x.createdAt <= y.createdAt
    ensures Ordered(a + b)
  {
    forall i, j | 0 <= i < j < |a + b|
      ensures (a + b)[i].id != (a + b)[j].id && (a + b)[i].createdAt <= (a + b)[j].createdAt
    {
      if i < |a| <= j { assert a[i] in a && b[j - |a|] in b; }
    }
  }

  lemma BatchPending(outbox: Events, limit: nat, batch: seq<Event>, e: Event)
    requires IsBatch(outbox, limit, batch) && e in batch
    ensures IsPending(outbox, e) && e.id in PendingIds(outbox)
  {
    var i :| 0 <= i < |batch| && batch[i] == e;
  }

  lemma SendBatch(start: Events, now: Events, sent: seq<Event>, limit: nat, batch: seq<Event>)
    requires SentSoFar(start, now, sent) && IsBatch(now, limit, batch)
    ensures SentSoFar(start, Marked(now, Ids(batch)), sent + batch)
  {
    var next := Marked(now, Ids(batch));
    MarkedPending(now, Ids(batch));
    assert Ids(sent + batch) == Ids(sent) + Ids(batch);
    forall e | e in batch ensures IsPending(start, e) && e.id in PendingIds(now) && now[e.id] == e {
      BatchPending(now, limit, batch, e);
    }
    forall x, y | x in sent && y in batch ensures x.id != y.id && x.createdAt <= y.createdAt {
      assert y.id in PendingIds(now);
      assert x.id in Ids(sent);
    }
    OrderedJoin(sent, batch);
    forall e, id | e in sent + batch && id in PendingIds(next) ensures e.createdAt <= next[id].createdAt {
      assert id in PendingIds(now) && id !in Ids(batch);
      if e in batch {
        assert now[id] !in batch;
        var i :| 0 <= i < |batch| && batch[i] == e;
      }
    }
  }

  lemma {:induction false} SentInOrder(states: seq<State>, batches: seq<seq<Event>>, limit: nat, n: nat)
    requires DrainRun(states, batches, limit) && Keyed(states[0].outbox) && n <= |batches|
    ensures SentSoFar(states[0].outbox, states[n].outbox, Flat(batches[..n]))
    ensures states[n].table == states[0].table
    ensures states[n].feeds == ApplyAll(states[0].feeds, states[0].table, Flat(batches[..n]))
    decreases n
  {
    hide FanOut, SubsOf, IsBatch;
    if n > 0 {
      SentInOrder(states, batches, limit, n - 1);
      assert batches[..n][..n - 1] == batches[..n - 1];
      var sent := Flat(batches[..n - 1]);
      SendBatch(states[0].outbox, states[n - 1].outbox, sent, limit, batches[n - 1]);
      PassesJoin(states[0].feeds, states[0].table, sent, batches[n - 1]);
    }
  }

  lemma AllSent(start: Events, now: Events, sent: seq<Event>)
    requires SentSoFar(start, now, sent) && PendingIds(now) == {}
    ensures Ordered(sent) && Ids(sent) == PendingIds(start)
  {
    forall id | id in Ids(sent) ensures id in PendingIds(start) {
      var e :| e in sent && e.id == id;
      assert IsPending(start, e);
    }
  }

  /** Draining is one pass over all pending events: each exactly once, in creation order. */
  lemma DrainIsOnePass(states: seq<State>, batches: seq<seq<Event>>, limit: nat)
    requires limit >= 1 && DrainRun(states, batches, limit) && Keyed(states[0].outbox)
    requires |batches| == CeilDiv(|PendingIds(states[0].outbox)|, limit)
    ensures Ordered(Flat(batches)) && Ids(Flat(batches)) == PendingIds(states[0].outbox)
    ensures states[|batches|].feeds == ApplyAll(states[0].feeds, states[0].table, Flat(batches))
  {
    hide FanOut, SubsOf, IsBatch, Ordered, Ids, PendingIds;
    var n := |batches|;
    DrainBound(states, batches, limit);
    SentInOrder(states, batches, limit, n);
    assert batches[..n] == batches;
    NothingPending(states[n].outbox, limit);
    AllSent(states[0].outbox, states[n].outbox, Flat(batches));
  }
}
