/** Eventual consistency: an undisturbed consumer brings every feed to the fan-in merge. */
module Eventual {
  import opened Model
  import opened Counting
  import opened Outbox
  import opened Settled
  import opened Replay
  import opened FanIn
  import opened FeedStore
  import opened Store
  import opened Processor
  import opened Drain

  /** Reached by some run with a fixed follower relation. */
  ghost predicate Steady(s: State, limit: nat) {
    exists states, actions :: Run(states, actions, limit) && Init(states[0]) && FixedTable(states) && states[|actions|] == s
  }

  lemma SteadyStep(s: State, a: Action, limit: nat)
    requires Steady(s, limit) && Enabled(s, a, limit) && Do(s, a, limit).table == s.table
    ensures Steady(Do(s, a, limit), limit)
  {
    hide Enabled, Do, Init;
    var states, actions :| Run(states, actions, limit) && Init(states[0]) && FixedTable(states) && states[|actions|] == s;
    var states', actions' := states + [Do(s, a, limit)], actions + [a];
    forall i | 0 <= i < |actions'|
      ensures Enabled(states'[i], actions'[i], limit) && states'[i + 1] == Do(states'[i], actions'[i], limit)
    {
      if i < |actions| {
        assert Enabled(states[i], actions[i], limit) && states[i + 1] == Do(states[i], actions[i], limit);
      }
    }
    assert Run(states', actions', limit) && FixedTable(states');
  }

  /** The consumer has fanned out the first n events of its batch. */
  function Passed(s: State, batch: seq<Event>, n: nat): State
    requires n <= |batch|
  {
    s.(feeds := ApplyAll(s.feeds, s.table, batch[..n]), consumer := Working(batch, n, None))
  }

  lemma SteadyEvent(s: State, limit: nat)
    requires Steady(s, limit) && s.consumer.Working? && s.consumer.next < |s.consumer.batch| && s.consumer.subs == None
    ensures var c := s.consumer; var e := c.batch[c.next];
      Steady(s.(feeds := FanOut(s.feeds, SubsOf(s.table, e.post.author), e), consumer := Working(c.batch, c.next + 1, None)), limit)
  {
    hide SubsOf, FanOut, IsBatch, ReadBack, AfterAdded, Steady;
    var subs := SubsOf(s.table, s.consumer.batch[s.consumer.next].post.author);
    SteadyStep(s, ReadSubs, limit);
    SteadyStep(Do(s, ReadSubs, limit), Push(subs, true), limit);
  }

  lemma {:induction false} SteadyPass(s: State, batch: seq<Event>, limit: nat, n: nat)
    requires Steady(s, limit) && s.consumer == Idle
    requires batch != [] && IsBatch(s.outbox, limit, batch) && n <= |batch|
    ensures Steady(Passed(s, batch, n), limit)
    decreases n
  {
    hide SubsOf, FanOut, IsBatch, Steady;
    if n == 0 {
      SteadyStep(s, Fetch(batch), limit);
    } else {
      SteadyPass(s, batch, limit, n - 1);
      SteadyEvent(Passed(s, batch, n - 1), limit);
      assert batch[..n] == batch[..n - 1] + [batch[n - 1]];
      PassNext(s.feeds, s.table, batch[..n - 1], batch[n - 1]);
    }
  }

  lemma SteadyCycle(s: State, batch: seq<Event>, limit: nat)
    requires Steady(s, limit) && s.consumer == Idle
    requires batch != [] && IsBatch(s.outbox, limit, batch)
    ensures Steady(Cycle(s, batch), limit)
  {
    hide FanOut, ApplyAll, IsBatch, Steady;
    SteadyPass(s, batch, limit, |batch|);
    assert batch[..|batch|] == batch;
    SteadyStep(Passed(s, batch, |batch|), Mark, limit);
  }

  lemma {:induction false} SteadyDrain(states: seq<State>, batches: seq<seq<Event>>, limit: nat, n: nat)
    requires DrainRun(states, batches, limit) && n <= |batches|
    requires Steady(states[0], limit) && states[0].consumer == Idle
    ensures Steady(states[n], limit) && states[n].consumer == Idle
    decreases n
  {
    hide Steady, IsBatch;
    if n > 0 {
      SteadyDrain(states, batches, limit, n - 1);
      SteadyCycle(states[n - 1], batches[n - 1], limit);
    }
  }

  /** What the merge and its condition depend on. */
  predicate SamePosts(s: State, t: State) {
    && t.rows == s.rows && t.table == s.table && t.outbox.Keys == s.outbox.Keys
    && forall id | id in s.outbox :: t.outbox[id].kind == s.outbox[id].kind && t.outbox[id].post == s.outbox[id].post
  }

  lemma {:induction false} DrainKeepsPosts(states: seq<State>, batches: seq<seq<Event>>, limit: nat, n: nat)
    requires DrainRun(states, batches, limit) && n <= |batches|
    ensures SamePosts(states[0], states[n])
    decreases n
  {
    hide IsBatch;
    if n > 0 { DrainKeepsPosts(states, batches, limit, n - 1); }
  }

  lemma SameMerge(s: State, t: State, user: Uuid)
    requires SamePosts(s, t)
    ensures LiveMerge(t, user) == LiveMerge(s, user)
    ensures DeletionsQueued(t, user) <==> DeletionsQueued(s, user)
  {
    forall p ensures HasDeleted(t.outbox, p) <==> HasDeleted(s.outbox, p) {
      if HasDeleted(s.outbox, p) {
        var id :| IsDeleted(s.outbox, id, p);
        assert IsDeleted(t.outbox, id, p);
      }
      if HasDeleted(t.outbox, p) {
        var id :| IsDeleted(t.outbox, id, p);
        assert IsDeleted(s.outbox, id, p);
      }
    }
  }

  lemma SteadyMerge(s: State, limit: nat, user: Uuid)
    requires limit >= 1 && Steady(s, limit) && IsBatch(s.outbox, limit, [])
    ensures Drained(s)
    ensures FeedOf(s.feeds, user) == Members(LiveMerge(s, user)) <==> DeletionsQueued(s, user)
  {
    SteadyInv(s, limit);
    NothingPending(s.outbox, limit);
    assert forall id | id in s.outbox :: s.outbox[id].processed || id in PendingIds(s.outbox);
    var states, actions :| Run(states, actions, limit) && Init(states[0]) && FixedTable(states) && states[|actions|] == s;
    FanOutIsFanIn(states, actions, limit, user);
  }

  lemma SteadyInv(s: State, limit: nat)
    requires Steady(s, limit)
    ensures Inv(s)
  {
    var states, actions :| Run(states, actions, limit) && Init(states[0]) && FixedTable(states) && states[|actions|] == s;
    Reachable(states, actions, limit, |actions|);
  }

  /** Undisturbed cycles from s, as many as its pending events take. A cycle that was under way
      starts over. */
  ghost predicate FullDrain(s: State, drained: seq<State>, batches: seq<seq<Event>>, limit: nat)
    requires limit >= 1
  {
    && DrainRun(drained, batches, limit) && drained[0] == s.(consumer := Idle)
    && |batches| == CeilDiv(|PendingIds(s.outbox)|, limit)
  }

  /** Nothing is pending in t, and the user's feed is the merge of s exactly when every soft
      delete of a merged post had queued its event by s. */
  ghost predicate Consistent(s: State, t: State, user: Uuid) {
    Drained(t) && (FeedOf(t.feeds, user) == Members(LiveMerge(s, user)) <==> DeletionsQueued(s, user))
  }

  lemma DrainConsistent(s: State, drained: seq<State>, batches: seq<seq<Event>>, limit: nat, user: Uuid)
    requires limit >= 1 && Steady(s, limit) && FullDrain(s, drained, batches, limit)
    ensures Consistent(s, drained[|batches|], user)
  {
    hide Steady, IsBatch;
    SteadyInv(s, limit);
    if s.consumer.Working? { SteadyStep(s, Fail, limit); }
    SteadyDrain(drained, batches, limit, |batches|);
    DrainBound(drained, batches, limit);
    SteadyMerge(drained[|batches|], limit, user);
    DrainKeepsPosts(drained, batches, limit, |batches|);
    SameMerge(s, drained[|batches|], user);
  }

  /** From any state reached with fixed followers, once producers pause and failures stop: the
      ceil(n / limit) cycles that n pending events take are possible, and whichever batches they
      fetch, afterwards nothing is pending and every feed is the merge of the followed authors'
      live posts if and only if every soft delete of such a post had queued its event. */
  lemma EventuallyConsistent(states: seq<State>, actions: seq<Action>, limit: nat, user: Uuid)
    requires limit >= 1 && Run(states, actions, limit) && Init(states[0]) && FixedTable(states)
    ensures exists drained, batches :: FullDrain(states[|actions|], drained, batches, limit)
    ensures forall drained, batches | FullDrain(states[|actions|], drained, batches, limit) ::
      Consistent(states[|actions|], drained[|batches|], user)
  {
    hide Consistent;
    var s := states[|actions|];
    assert Steady(s, limit);
    FullDrainExists(s, limit);
    forall drained, batches | FullDrain(s, drained, batches, limit) ensures Consistent(s, drained[|batches|], user) {
      DrainConsistent(s, drained, batches, limit, user);
    }
  }

  lemma FullDrainExists(s: State, limit: nat)
    requires limit >= 1 && Steady(s, limit)
    ensures exists drained, batches :: FullDrain(s, drained, batches, limit)
  {
    hide Steady, IsBatch;
    SteadyInv(s, limit);
    var drained, batches := DrainExists(s.(consumer := Idle), limit);
    assert FullDrain(s, drained, batches, limit);
  }
}
