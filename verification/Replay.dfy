/** At-least-once delivery: what any number of failed attempts leave behind is absorbed by one
    complete pass over the batch. */
module Replay {
  import opened Model
  import opened Lex
  import opened Outbox

  /** One fan-out command: an event sent to some of the users. */
  datatype Sent = Sent(event: Event, reached: set<Uuid>)

  function SendAll(feeds: Feeds, sent: seq<Sent>): Feeds {
    if |sent| == 0 then feeds
    else FanOut(SendAll(feeds, sent[..|sent| - 1]), sent[|sent| - 1].reached, sent[|sent| - 1].event)
  }

  /** A complete pass: every event to every follower of its author, in order. */
  function ApplyAll(feeds: Feeds, table: set<Subscription>, batch: seq<Event>): Feeds {
    if |batch| == 0 then feeds
    else
      var e := batch[|batch| - 1];
      FanOut(ApplyAll(feeds, table, batch[..|batch| - 1]), SubsOf(table, e.post.author), e)
  }

  predicate Touches(table: set<Subscription>, e: Event, user: Uuid, m: Bytes) {
    user in SubsOf(table, e.post.author) && MemberOf(e.post) == m
  }

  /** What a complete pass decides about one member of one feed, by its last event there. */
  function Verdict(table: set<Subscription>, batch: seq<Event>, user: Uuid, m: Bytes): Option<bool> {
    if |batch| == 0 then None
    else
      var e := batch[|batch| - 1];
      if Touches(table, e, user, m) then Some(e.kind == PostAdded)
      else Verdict(table, batch[..|batch| - 1], user, m)
  }

  lemma {:induction false} PassDecides(feeds: Feeds, table: set<Subscription>, batch: seq<Event>, user: Uuid, m: Bytes)
    ensures m in FeedOf(ApplyAll(feeds, table, batch), user) <==>
      match Verdict(table, batch, user, m) { case Some(here) => here case None => m in FeedOf(feeds, user) }
    decreases |batch|
  {
    if |batch| > 0 {
      PassDecides(feeds, table, batch[..|batch| - 1], user, m);
    }
  }

  lemma {:induction false} UntouchedBy(table: set<Subscription>, batch: seq<Event>, user: Uuid, m: Bytes, e: Event)
    requires Verdict(table, batch, user, m) == None && e in batch
    ensures !Touches(table, e, user, m)
    decreases |batch|
  {
    var n := |batch| - 1;
    if e != batch[n] {
      UntouchedBy(table, batch[..n], user, m, e);
    }
  }

  /** Commands that a failed attempt at the batch may have got through. */
  predicate Attempted(table: set<Subscription>, batch: seq<Event>, sent: seq<Sent>) {
    forall i | 0 <= i < |sent| :: sent[i].event in batch && sent[i].reached <= SubsOf(table, sent[i].event.post.author)
  }

  lemma SendSpares(feeds: Feeds, table: set<Subscription>, s: Sent, user: Uuid, m: Bytes)
    requires s.reached <= SubsOf(table, s.event.post.author)
    ensures !Touches(table, s.event, user, m) ==>
      (m in FeedOf(FanOut(feeds, s.reached, s.event), user) <==> m in FeedOf(feeds, user))
  {
  }

  lemma {:induction false} AttemptSpares(feeds: Feeds, table: set<Subscription>, batch: seq<Event>, sent: seq<Sent>,
                                         user: Uuid, m: Bytes)
    requires Attempted(table, batch, sent) && Verdict(table, batch, user, m) == None
    ensures m in FeedOf(SendAll(feeds, sent), user) <==> m in FeedOf(feeds, user)
    decreases |sent|
  {
    hide FanOut, SubsOf, Touches, Verdict;
    var n := |sent| - 1;
    if n >= 0 {
      SendSpares(SendAll(feeds, sent[..n]), table, sent[n], user, m);
      AttemptSpares(feeds, table, batch, sent[..n], user, m);
      UntouchedBy(table, batch, user, m, sent[n].event);
    }
  }

  lemma {:induction false} SendCanonical(feeds: Feeds, sent: seq<Sent>)
    requires Canonical(feeds)
    ensures Canonical(SendAll(feeds, sent))
  {
  }

  lemma PassCanonical(feeds: Feeds, table: set<Subscription>, batch: seq<Event>)
    requires Canonical(feeds)
    ensures Canonical(ApplyAll(feeds, table, batch))
  {
  }

  /** Whatever failed attempts got through, in any order, to any of the followers and any
      number of times, a complete pass ends in the same feeds as a single one. */
  lemma ReplayAbsorbed(feeds: Feeds, table: set<Subscription>, batch: seq<Event>, sent: seq<Sent>)
    requires Canonical(feeds) && Attempted(table, batch, sent)
    ensures ApplyAll(SendAll(feeds, sent), table, batch) == ApplyAll(feeds, table, batch)
  {
    var replayed, once := ApplyAll(SendAll(feeds, sent), table, batch), ApplyAll(feeds, table, batch);
    forall u: Uuid ensures FeedOf(replayed, u) == FeedOf(once, u) {
      forall m ensures m in FeedOf(replayed, u) <==> m in FeedOf(once, u) {
        PassDecides(SendAll(feeds, sent), table, batch, u, m);
        PassDecides(feeds, table, batch, u, m);
        if Verdict(table, batch, u, m) == None {
          AttemptSpares(feeds, table, batch, sent, u, m);
        }
      }
    }
    SendCanonical(feeds, sent);
    PassCanonical(SendAll(feeds, sent), table, batch);
    PassCanonical(feeds, table, batch);
    SameFeeds(replayed, once);
  }

  /** One attempt as the loop makes it: a prefix of the batch in full, then one event that
      reaches some of the followers. */
  function Attempt(table: set<Subscription>, batch: seq<Event>, full: nat, reached: set<Uuid>): (sent: seq<Sent>)
    requires full <= |batch|
    ensures |sent| == if full < |batch| then full + 1 else full
  {
    var whole := seq(full, i requires 0 <= i < full => Sent(batch[i], SubsOf(table, batch[i].post.author)));
    if full < |batch| then whole + [Sent(batch[full], reached)] else whole
  }

  lemma AttemptIsAttempted(table: set<Subscription>, batch: seq<Event>, full: nat, reached: set<Uuid>)
    requires full <= |batch|
    requires full < |batch| ==> reached <= SubsOf(table, batch[full].post.author)
    ensures Attempted(table, batch, Attempt(table, batch, full, reached))
  {
  }

  lemma PassNext(feeds: Feeds, table: set<Subscription>, batch: seq<Event>, e: Event)
    ensures ApplyAll(feeds, table, batch + [e]) == FanOut(ApplyAll(feeds, table, batch), SubsOf(table, e.post.author), e)
  {
    assert (batch + [e])[..|batch|] == batch;
  }

  lemma {:induction false} PassesJoin(feeds: Feeds, table: set<Subscription>, first: seq<Event>, second: seq<Event>)
    ensures ApplyAll(ApplyAll(feeds, table, first), table, second) == ApplyAll(feeds, table, first + second)
    decreases |second|
  {
    hide FanOut, SubsOf;
    var n := |second| - 1;
    if n < 0 {
      assert first + second == first;
    } else {
      PassesJoin(feeds, table, first, second[..n]);
      assert first + second == (first + second[..n]) + [second[n]];
      PassNext(feeds, table, first + second[..n], second[n]);
    }
  }
}
