/** The outbox consumer as the code runs it, refining the steps of the outbox system. */
module Processor {
  import opened Model
  import opened Outbox
  import opened Replay
  import opened FeedStore
  import opened Store
  import opened Backoff

  // ----- Steps of one event ----------------------------------------------------------------

  /** Reading the followers, what others do meanwhile, and a fan-out to all or some of them. */
  lemma EventLeads(s: State, t: State, reached: set<Uuid>, acked: bool, limit: nat)
    requires s.consumer.Working? && s.consumer.next < |s.consumer.batch| && s.consumer.subs == None
    requires Leads(Do(s, ReadSubs, limit), t, limit) && t.consumer == Do(s, ReadSubs, limit).consumer
    requires reached <= t.consumer.subs.value && (acked ==> reached == t.consumer.subs.value)
    ensures Leads(s, Do(t, Push(reached, acked), limit), limit)
  {
    hide SubsOf, FanOut, IsBatch, ReadBack, AfterAdded, Leads;
    LeadsStay(s, limit);
    LeadsStep(s, s, ReadSubs, limit);
    LeadsJoin(s, Do(s, ReadSubs, limit), t, limit);
    LeadsStep(s, t, Push(reached, acked), limit);
  }

  lemma FailLeads(s: State, limit: nat)
    requires s.consumer.Working?
    ensures Leads(s, s.(consumer := Idle), limit)
  {
    LeadsStay(s, limit);
    LeadsStep(s, s, Fail, limit);
  }

  lemma FetchLeads(s: State, batch: seq<Event>, limit: nat)
    requires s.consumer == Idle && batch != [] && IsBatch(s.outbox, limit, batch)
    ensures Leads(s, s.(consumer := Working(batch, 0, None)), limit)
  {
    LeadsStay(s, limit);
    LeadsStep(s, s, Fetch(batch), limit);
  }

  lemma MarkLeads(s: State, limit: nat)
    requires s.consumer.Working? && s.consumer.next == |s.consumer.batch|
    ensures Leads(s, s.(outbox := Marked(s.outbox, Ids(s.consumer.batch)), consumer := Idle), limit)
  {
    LeadsStay(s, limit);
    LeadsStep(s, s, Mark, limit);
  }

  /** What a cycle without faults does. */
  function Cycle(s: State, batch: seq<Event>): State {
    s.(feeds := ApplyAll(s.feeds, s.table, batch), outbox := Marked(s.outbox, Ids(batch)), consumer := Idle)
  }

  // ----- The processor ---------------------------------------------------------------------

  /** Where a cycle goes wrong: at the fetch, at an event's followers, in an event's pipeline,
      or at the marking, which may have been carried out all the same. */
  datatype Fault = NoFault | FetchFails | SubsFail(at: nat) | PushBreaks(at: nat, reached: set<Uuid>) | MarkFails(applied: bool)

  /** What others commit during a cycle: gap 2 * i is before event i, gap 2 * i + 1 between
      reading its author's followers and sending to them, the last gap before the marking. */
  type Gaps = nat -> seq<Action>

  ghost predicate Quiet(gaps: Gaps) {
    forall g: nat :: gaps(g) == []
  }

  /** One turn of the loop: what others commit during the delay and the cycle, and the fault. */
  datatype Plan = Plan(between: seq<Action>, gaps: Gaps, fault: Fault)

  /** Of the events of before exactly the given ones have become processed; new ones are pending. */
  predicate MarkedSince(before: Events, now: Events, ids: set<Uuid>) {
    && Keyed(now)
    && (forall id | id in before ::
          id in now && now[id] == before[id].(processed := before[id].processed || id in ids))
    && (forall id | id in now && id !in before :: !now[id].processed)
  }

  datatype Outcome = Processed | NothingToFetch | Failed {
    predicate Adverse() { !Processed? }
  }

  /** How many adverse cycles end the history. */
  function Trailing(outcomes: seq<Outcome>): nat {
    if |outcomes| == 0 || !outcomes[|outcomes| - 1].Adverse() then 0
    else 1 + Trailing(outcomes[..|outcomes| - 1])
  }

  lemma MarkAppended(before: Events, now: Events, ids: set<Uuid>)
    requires Appended(before, now) && ids <= before.Keys
    ensures MarkedSince(before, Marked(now, ids), ids)
  {
  }

  /** Whom a pipeline for the event reaches. */
  function ReachedOf(table: set<Subscription>, event: Event, pipeline: Pipeline): set<Uuid> {
    var subs := SubsOf(table, event.post.author);
    if pipeline.Delivered? then subs else subs * pipeline.reached
  }

  /** Cycles k to i - 1 did not process anything, and cycle k is the first or follows a success. */
  predicate UnprocessedSince(outcomes: seq<Outcome>, k: nat, i: nat)
    requires k <= i <= |outcomes|
  {
    (forall j | k <= j < i :: outcomes[j] != Processed) && (k == 0 || outcomes[k - 1] == Processed)
  }

  lemma {:induction false} TrailingSince(outcomes: seq<Outcome>, k: nat, i: nat)
    requires k <= i <= |outcomes| && UnprocessedSince(outcomes, k, i)
    ensures Trailing(outcomes[..i]) == i - k
    decreases i
  {
    if k < i {
      TrailingSince(outcomes, k, i - 1);
      assert outcomes[..i][..i - 1] == outcomes[..i - 1];
    }
  }

  predicate Scheduled(delays: seq<int>, outcomes: seq<Outcome>) {
    && |delays| == |outcomes|
    && forall i | 0 <= i < |delays| :: delays[i] == DelayAfter(2, SECOND, 30 * SECOND, Trailing(outcomes[..i]))
  }

  lemma ScheduledNext(delays: seq<int>, outcomes: seq<Outcome>, delay: int, outcome: Outcome)
    requires Scheduled(delays, outcomes) && delay == DelayAfter(2, SECOND, 30 * SECOND, Trailing(outcomes))
    ensures Scheduled(delays + [delay], outcomes + [outcome])
    ensures Trailing(outcomes + [outcome]) == if outcome.Adverse() then Trailing(outcomes) + 1 else 0
  {
    hide DelayAfter;
    var longer := outcomes + [outcome];
    assert longer[..|outcomes|] == outcomes;
    forall i | 0 <= i < |outcomes| ensures longer[..i] == outcomes[..i] {
    }
  }

  /** The delays of the loop, from the outcomes alone: nothing at first and after a success,
      then one second, doubling up to half a minute. */
  lemma DelaysOf(delays: seq<int>, outcomes: seq<Outcome>)
    requires Scheduled(delays, outcomes)
    ensures forall i, k | 0 <= k <= i < |delays| && UnprocessedSince(outcomes, k, i) ::
      delays[i] == if i == k then 0 else Min(1_000_000_000 * Power(2, i - k - 1), 30_000_000_000)
    ensures |delays| > 0 ==> delays[0] == 0
    ensures forall i | 0 < i < |delays| ::
      delays[i] == (if outcomes[i - 1] == Processed then 0
      else if delays[i - 1] == 0 then 1_000_000_000
      else if delays[i - 1] < 15_000_000_000 then 2 * delays[i - 1]
      else 30_000_000_000)
  {
    hide UnprocessedSince, Power;
    assert Power(2, 0) == 1 by { FirstPower(2); }
    forall i, k | 0 <= k <= i < |delays| && UnprocessedSince(outcomes, k, i)
      ensures delays[i] == if i == k then 0 else Min(1_000_000_000 * Power(2, i - k - 1), 30_000_000_000)
    {
      TrailingSince(outcomes, k, i);
    }
    forall i | 0 < i < |delays| ensures delays[i] == (
      if outcomes[i - 1] == Processed then 0
      else if delays[i - 1] == 0 then 1_000_000_000
      else if delays[i - 1] < 15_000_000_000 then 2 * delays[i - 1]
      else 30_000_000_000)
    {
      assert outcomes[..i][..i - 1] == outcomes[..i - 1];
      DelayDoubles(Trailing(outcomes[..i - 1]));
    }
  }

  lemma FirstPower(base: nat)
    ensures Power(base, 0) == 1
  {
  }

  lemma PlainDelay(n: nat)
    ensures DelayAfter(2, SECOND, 30 * SECOND, n) == if n == 0 then 0 else Min(1_000_000_000 * Power(2, n - 1), 30_000_000_000)
  {
  }

  lemma DelayDoubles(n: nat)
    ensures var d, e := DelayAfter(2, SECOND, 30 * SECOND, n), DelayAfter(2, SECOND, 30 * SECOND, n + 1);
      e == (if d == 0 then 1_000_000_000 else if d < 15_000_000_000 then 2 * d else 30_000_000_000)
  {
    if n > 0 {
      PowerGrows(2, SECOND, 0, n - 1);
      NextPower(2, SECOND, n);
    }
  }

  const SECOND := 1_000_000_000

  class PostEventsProcessor {
    const db: Database
    const feedCacher: FeedCacher
    const backoff: ExponentialBackOff
    const limit: nat

    constructor (db: Database, feedCacher: FeedCacher, limit: nat)
      ensures this.db == db && this.feedCacher == feedCacher && this.limit == limit
      ensures fresh(backoff) && backoff.adverseCount == 0 && StandardBackoff()
      ensures backoff.base == 2 && backoff.coefficient == 1_000_000_000 && backoff.maxDelay == 30_000_000_000
    {
      this.db, this.feedCacher, this.limit := db, feedCacher, limit;
      backoff := new ExponentialBackOff(2, SECOND, 30 * SECOND);
    }

    /** Doubling from one second up to half a minute. */
    ghost predicate StandardBackoff() {
      backoff.base == 2 && backoff.coefficient == SECOND && backoff.maxDelay == 30 * SECOND
    }

    ghost predicate Valid()
      reads db, feedCacher
    {
      Keyed(db.outbox) && Canonical(feedCacher.feeds)
    }

    /** The system state while the consumer is at `c`. */
    ghost function At(c: Consumer): State
      reads db, feedCacher
    {
      db.Now().At(feedCacher.feeds, c)
    }

    /** pushToFeed and removeFromFeed. */
    method SendToFeeds(event: Event, up: bool, meanwhile: seq<Action>, pipeline: Pipeline) returns (ok: bool)
      requires Valid()
      modifies db, feedCacher
      ensures Valid() && Appended(old(db.outbox), db.outbox)
      ensures ok <==> up && pipeline.Delivered?
      ensures !up ==> feedCacher.feeds == old(feedCacher.feeds)
      ensures up ==> feedCacher.feeds == FanOut(old(feedCacher.feeds), ReachedOf(old(db.table), event, pipeline), event)
      ensures !up || meanwhile == [] ==> db.Now() == old(db.Now())
      ensures Leading(old(db.Now()), db.Now())
    {
      hide FanOut, Leading, Canonical;
      LeadingStay(db.Now());
      var subs := db.GetSubs(event.post.author, up);
      if subs == None {
        return false;
      }
      assert Reached(subs.value, pipeline) == ReachedOf(db.table, event, pipeline) by {
        assert SetOf(subs.value) == SubsOf(db.table, event.post.author);
      }
      db.Serve(meanwhile);
      ok := feedCacher.Send(event, subs.value, pipeline);
    }

    /** One event of the batch: added and deleted posts go to all followers of the author. */
    method SendNext(events: seq<Event>, i: nat, before: seq<Action>, meanwhile: seq<Action>, fault: Fault) returns (ok: bool)
      requires Valid() && i < |events|
      modifies db, feedCacher
      ensures Valid() && Appended(old(db.outbox), db.outbox)
      ensures ok <==> fault != SubsFail(i) && !(fault.PushBreaks? && fault.at == i)
      ensures Leads(old(At(Working(events, i, None))), At(if ok then Working(events, i + 1, None) else Idle), limit)
      ensures ok && before == [] && meanwhile == [] ==>
        At(Idle) == old(At(Idle)).(feeds := FanOut(old(feedCacher.feeds), SubsOf(old(db.table), events[i].post.author), events[i]))
    {
      hide SubsOf, FanOut, Leads, Canonical;
      ghost var start := At(Working(events, i, None));
      db.Serve(before);
      ghost var now, tables := At(Working(events, i, None)), db.Now();
      ghost var asked := Working(events, i, Some(SubsOf(db.table, events[i].post.author)));
      var up := fault != SubsFail(i);
      var pipeline := if fault.PushBreaks? && fault.at == i then Broken(fault.reached) else Delivered;
      ok := SendToFeeds(events[i], up, meanwhile, pipeline);
      if up {
        assert Do(now, ReadSubs, limit) == tables.At(now.feeds, asked);
        EventLeads(now, db.Now().At(now.feeds, asked), ReachedOf(now.table, events[i], pipeline), ok, limit);
      } else {
        FailLeads(now, limit);
      }
      LeadsJoin(start, now, At(if ok then Working(events, i + 1, None) else Idle), limit);
    }

    method ProcessEvents(events: seq<Event>, gaps: Gaps, fault: Fault) returns (ok: bool)
      requires Valid()
      modifies db, feedCacher
      ensures Valid() && Appended(old(db.outbox), db.outbox)
      ensures Leads(old(At(Working(events, 0, None))), At(if ok then Working(events, |events|, None) else Idle), limit)
      ensures ok && Quiet(gaps) ==>
        At(Idle) == old(At(Idle)).(feeds := ApplyAll(old(feedCacher.feeds), old(db.table), events))
      ensures fault.NoFault? || fault.MarkFails? ==> ok
    {
      hide SubsOf, FanOut, Leads, Canonical, Keyed;
      LeadsStay(At(Working(events, 0, None)), limit);
      for i := 0 to |events|
        invariant Valid() && Appended(old(db.outbox), db.outbox)
        invariant Leads(old(At(Working(events, 0, None))), At(Working(events, i, None)), limit)
        invariant Quiet(gaps) ==>
          At(Idle) == old(At(Idle)).(feeds := ApplyAll(old(feedCacher.feeds), old(db.table), events[..i]))
      {
        ghost var before := At(Working(events, i, None));
        ok := SendNext(events, i, gaps(2 * i), gaps(2 * i + 1), fault);
        LeadsJoin(old(At(Working(events, 0, None))), before, At(if ok then Working(events, i + 1, None) else Idle), limit);
        if !ok {
          return false;
        }
        assert events[..i + 1] == events[..i] + [events[i]];
        PassNext(old(feedCacher.feeds), old(db.table), events[..i], events[i]);
      }
      assert events[..|events|] == events;
      return true;
    }

    method FromEventsToIds(events: seq<Event>) returns (ids: seq<Uuid>)
      ensures |ids| == |events| && forall i | 0 <= i < |events| :: ids[i] == events[i].id
      ensures SetOf(ids) == Ids(events)
    {
      ids := [];
      for i := 0 to |events|
        invariant |ids| == i && forall j | 0 <= j < i :: ids[j] == events[j].id
      {
        ids := ids + [events[i].id];
      }
      forall id ensures id in ids <==> id in Ids(events) {
        if id in ids {
          var i :| 0 <= i < |ids| && ids[i] == id;
          assert events[i] in events;
        }
        if id in Ids(events) {
          var e :| e in events && e.id == id;
          var i :| 0 <= i < |events| && events[i] == e;
          assert ids[i] in ids;
        }
      }
    }

    /** The second half of a cycle: fan the batch out and mark it. */
    method ProcessAndMark(batch: seq<Event>, gaps: Gaps, fault: Fault) returns (outcome: Outcome)
      requires Valid()
      modifies db, feedCacher
      ensures Valid() && !outcome.NothingToFetch?
      ensures Leads(old(At(Working(batch, 0, None))), At(Idle), limit)
      ensures outcome.Processed? && Quiet(gaps) ==> At(Idle) == Cycle(old(At(Idle)), batch)
      ensures outcome.Processed? && Ids(batch) <= old(db.outbox).Keys ==> MarkedSince(old(db.outbox), db.outbox, Ids(batch))
      ensures outcome.Failed? && fault != MarkFails(true) ==> Appended(old(db.outbox), db.outbox)
      ensures fault.NoFault? ==> !outcome.Failed?
    {
      hide FanOut, SubsOf, ApplyAll, Leads, Canonical;
      ghost var start := At(Working(batch, 0, None));
      var ok := ProcessEvents(batch, gaps, fault);
      if !ok {
        return Failed;
      }
      ghost var sent := At(Working(batch, |batch|, None));
      db.Serve(gaps(2 * |batch|));
      LeadsJoin(start, sent, At(Working(batch, |batch|, None)), limit);
      sent := At(Working(batch, |batch|, None));
      ghost var outbox := db.outbox;
      var ids := FromEventsToIds(batch);
      var answer := if fault.MarkFails? then if fault.applied then Unacked else Refused else Acked;
      var marked := db.SetEventsAsProcessed(ids, answer);
      if answer.Applied() { MarkLeads(sent, limit); } else { FailLeads(sent, limit); }
      LeadsJoin(start, sent, At(Idle), limit);
      if Ids(batch) <= old(db.outbox).Keys { MarkAppended(old(db.outbox), outbox, Ids(batch)); }
      outcome := if marked then Processed else Failed;
    }

    /** One cycle is a run of the system, whatever fails in it and whatever others commit
        during it. Success marks exactly a batch of the oldest pending events, completely fanned
        out; undisturbed it is one pass and the marking and changes nothing else. */
    method FetchAndProcess(gaps: Gaps, fault: Fault) returns (outcome: Outcome)
      requires Valid()
      modifies db, feedCacher
      ensures Valid()
      ensures Leads(old(At(Idle)), At(Idle), limit)
      ensures outcome.Processed? ==> exists batch ::
        && batch != [] && IsBatch(old(db.outbox), limit, batch)
        && MarkedSince(old(db.outbox), db.outbox, Ids(batch))
        && (Quiet(gaps) ==> At(Idle) == Cycle(old(At(Idle)), batch))
      ensures outcome.NothingToFetch? ==> At(Idle) == old(At(Idle)) && IsBatch(db.outbox, limit, [])
      ensures outcome.Failed? && fault != MarkFails(true) ==> Appended(old(db.outbox), db.outbox)
      ensures fault.NoFault? ==> !outcome.Failed?
      ensures fault.FetchFails? ==> outcome.Failed?
    {
      hide Quiet;
      LeadsStay(At(Idle), limit);
      var events := db.GetOutboxEvents(limit, !fault.FetchFails?);
      if events == None {
        return Failed;
      }
      if |events.value| == 0 {
        return NothingToFetch;
      }
      ghost var start := At(Idle);
      FetchLeads(start, events.value, limit);
      outcome := ProcessAndMark(events.value, gaps, fault);
      LeadsJoin(start, start.(consumer := Working(events.value, 0, None)), At(Idle), limit);
    }

    /** One turn of the loop: the delay before the cycle, the cycle, the backoff update. */
    method Turn(plan: Plan) returns (delay: int, outcome: Outcome)
      requires Valid() && StandardBackoff()
      modifies db, feedCacher, backoff
      ensures Valid()
      ensures Leads(old(At(Idle)), At(Idle), limit)
      ensures delay == if old(backoff.adverseCount) == 0 then 0
        else Min(1_000_000_000 * Power(2, old(backoff.adverseCount) - 1), 30_000_000_000)
      ensures backoff.adverseCount == if outcome == Processed then 0 else old(backoff.adverseCount) + 1
      ensures plan.fault.NoFault? ==> outcome != Failed
      ensures plan.fault.FetchFails? ==> outcome == Failed
      ensures outcome == NothingToFetch ==> PendingIds(db.outbox) == {} || limit == 0
    {
      delay := backoff.NextDelay();
      db.Serve(plan.between);
      ghost var fetched := At(Idle);
      outcome := FetchAndProcess(plan.gaps, plan.fault);
      LeadsJoin(old(At(Idle)), fetched, At(Idle), limit);
      if outcome.Adverse() {
        backoff.AccumulateAdverse();
      } else {
        backoff.ClearAdverse();
      }
    }

    /** The loop until it is told to stop, while others commit whatever they like. Each delay
        depends on nothing but the number of adverse cycles since the last success; finding
        nothing to fetch counts as adverse. */
    method Loop(schedule: seq<Plan>) returns (delays: seq<int>, outcomes: seq<Outcome>)
      requires Valid() && StandardBackoff() && backoff.adverseCount == 0
      modifies db, feedCacher, backoff
      ensures Valid()
      ensures Leads(old(At(Idle)), At(Idle), limit)
      ensures |delays| == |outcomes| == |schedule|
      ensures forall i | 0 <= i < |delays| :: delays[i] == DelayAfter(2, SECOND, 30 * SECOND, Trailing(outcomes[..i]))
      ensures forall i, k | 0 <= k <= i < |delays| && UnprocessedSince(outcomes, k, i) ::
        delays[i] == if i == k then 0 else Min(1_000_000_000 * Power(2, i - k - 1), 30_000_000_000)
      ensures |delays| > 0 ==> delays[0] == 0
      ensures forall i | 0 < i < |delays| ::
        delays[i] == (if outcomes[i - 1] == Processed then 0
        else if delays[i - 1] == 0 then 1_000_000_000
        else if delays[i - 1] < 15_000_000_000 then 2 * delays[i - 1]
        else 30_000_000_000)
      ensures forall i | 0 <= i < |schedule| ::
        (schedule[i].fault.NoFault? ==> outcomes[i] != Failed) && (schedule[i].fault.FetchFails? ==> outcomes[i] == Failed)
    {
      hide Leads, Power;
      delays, outcomes := [], [];
      LeadsStay(At(Idle), limit);
      for n := 0 to |schedule|
        invariant Valid()
        invariant Leads(old(At(Idle)), At(Idle), limit)
        invariant |delays| == |outcomes| == n
        invariant backoff.adverseCount == Trailing(outcomes)
        invariant Scheduled(delays, outcomes)
        invariant forall i | 0 <= i < n ::
          (schedule[i].fault.NoFault? ==> outcomes[i] != Failed) && (schedule[i].fault.FetchFails? ==> outcomes[i] == Failed)
      {
        ghost var before := At(Idle);
        var delay, outcome := Turn(schedule[n]);
        LeadsJoin(old(At(Idle)), before, At(Idle), limit);
        PlainDelay(Trailing(outcomes));
        ScheduledNext(delays, outcomes, delay, outcome);
        delays, outcomes := delays + [delay], outcomes + [outcome];
      }
      DelaysOf(delays, outcomes);
    }
  }
}
