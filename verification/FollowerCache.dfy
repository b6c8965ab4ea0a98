/** The cached follower sets in front of subscriber_author. Redis cannot tell an empty set from
    a missing key, so an author without followers is never cached. */
module FollowerCache {
  import opened Model
  import opened Store

  type Sets = map<Uuid, set<Uuid>>

  /** A cached set is exactly the author's followers, and never empty. */
  ghost predicate Agrees(table: set<Subscription>, sets: Sets) {
    forall a | a in sets :: sets[a] != {} && sets[a] == SubsOf(table, a)
  }

  predicate NoEmptySets(sets: Sets) {
    forall a | a in sets :: sets[a] != {}
  }

  // ----- Effects of whole calls ------------------------------------------------------------

  /** How the cache commands of a call end: its first look at the author's key, the second look
      of a refill, and the write. */
  datatype Commands = Commands(looks: bool, looksAgain: bool, write: Answer)

  datatype FollowState = FollowState(table: set<Subscription>, sets: Sets)

  /** `row` is how the table statement ends, `readUp` whether followers can be read. */
  datatype Op =
    | Subscribe(f: Subscription, row: Answer, readUp: bool, cache: Commands)
    | Unsubscribe(f: Subscription, row: Answer, readUp: bool, cache: Commands)
    | GetSubs(author: Uuid, readUp: bool, cache: Commands)
    | Evict(authors: set<Uuid>)

  /** SADD and SREM, without empty sets. */
  function Put(sets: Sets, author: Uuid, subs: set<Uuid>): Sets {
    if subs == {} then sets - {author} else sets[author := subs]
  }

  function Cached(sets: Sets, author: Uuid): set<Uuid> {
    if author in sets then sets[author] else {}
  }

  /** tryToCacheSubs: look again, else fetch from the table and add to the cache. */
  function Refill(s: FollowState, author: Uuid, readUp: bool, cache: Commands): FollowState {
    if (author in s.sets && cache.looksAgain) || !readUp || !cache.write.Applied() then s
    else s.(sets := Put(s.sets, author, Cached(s.sets, author) + SubsOf(s.table, author)))
  }

  /** The table takes the row unless it is there already or names one user twice. */
  predicate Inserts(s: FollowState, f: Subscription, row: Answer) {
    row.Applied() && f !in s.table && f.sub != f.author
  }

  predicate Removes(s: FollowState, f: Subscription, row: Answer) {
    row.Applied() && f in s.table
  }

  /** What follows an acknowledged change of the author's rows. */
  function Told(t: FollowState, author: Uuid, subs: set<Uuid>, readUp: bool, cache: Commands): FollowState {
    if !cache.looks then t
    else if author in t.sets then
      if cache.write.Applied() then t.(sets := Put(t.sets, author, subs)) else t
    else Refill(t, author, readUp, cache)
  }

  function After(s: FollowState, op: Op): FollowState {
    match op
    case Subscribe(f, row, readUp, cache) =>
      if !Inserts(s, f, row) then s else
      var t := s.(table := s.table + {f});
      if row.Acked? then Told(t, f.author, Cached(s.sets, f.author) + {f.sub}, readUp, cache) else t
    case Unsubscribe(f, row, readUp, cache) =>
      if !Removes(s, f, row) then s else
      var t := s.(table := s.table - {f});
      if row.Acked? then Told(t, f.author, Cached(s.sets, f.author) - {f.sub}, readUp, cache) else t
    case GetSubs(author, readUp, cache) =>
      if author in s.sets && cache.looks then s else Refill(s, author, readUp, cache)
    case Evict(authors) => s.(sets := s.sets - authors)
  }

  /** The cached set was not told: the statement was carried out but not acknowledged, or a
      cache command failed. */
  predicate Untold(row: Answer, cache: Commands) {
    !row.Acked? || !cache.looks || !cache.write.Applied()
  }

  /** The table changed under a cached set that was not told. */
  predicate Missed(s: FollowState, op: Op) {
    match op
    case Subscribe(f, row, _, cache) => Inserts(s, f, row) && f.author in s.sets && Untold(row, cache)
    case Unsubscribe(f, row, _, cache) => Removes(s, f, row) && f.author in s.sets && Untold(row, cache)
    case _ => false
  }

  /** One whole call, or any eviction, keeps the cache in agreement with the table exactly when
      no cached set misses a change. */
  lemma StepAgrees(s: FollowState, op: Op)
    requires Agrees(s.table, s.sets)
    ensures var t := After(s, op); Agrees(t.table, t.sets) <==> !Missed(s, op)
  {
  }

  /** A refill that can read and write leaves an author with followers cached, with exactly them. */
  lemma RefillCaches(s: FollowState, author: Uuid, readUp: bool, cache: Commands)
    requires Agrees(s.table, s.sets)
    ensures var t := Refill(s, author, readUp, cache);
      && (author in t.sets <==> author in s.sets || (readUp && !cache.write.Refused? && SubsOf(s.table, author) != {}))
      && (author in t.sets ==> t.sets[author] == SubsOf(s.table, author))
  {
  }

  /** Working cache commands are not enough: an insert that is carried out but reported as an
      error breaks agreement in every state in which the author is cached. */
  lemma UnackedInsertMissed(s: FollowState, f: Subscription, readUp: bool)
    requires Agrees(s.table, s.sets) && f.author in s.sets
    requires f !in s.table && f.sub != f.author
    ensures var t := After(s, Subscribe(f, Unacked, readUp, Commands(true, true, Acked)));
      !Agrees(t.table, t.sets) && f in t.table && f.sub !in t.sets[f.author]
  {
    StepAgrees(s, Subscribe(f, Unacked, readUp, Commands(true, true, Acked)));
  }

  lemma UnackedDeleteMissed(s: FollowState, f: Subscription, readUp: bool)
    requires Agrees(s.table, s.sets) && f.author in s.sets && f in s.table
    ensures var t := After(s, Unsubscribe(f, Unacked, readUp, Commands(true, true, Acked)));
      !Agrees(t.table, t.sets) && f !in t.table && f.sub in t.sets[f.author]
  {
    StepAgrees(s, Unsubscribe(f, Unacked, readUp, Commands(true, true, Acked)));
  }

  ghost predicate FollowRun(states: seq<FollowState>, ops: seq<Op>) {
    && |states| == |ops| + 1
    && forall i | 0 <= i < |ops| :: states[i + 1] == After(states[i], ops[i])
  }

  /** Over every run without a missed change, whatever else the database and the cache refuse,
      the cached followers of an author are missing or exactly the table's. */
  lemma {:induction false} RunAgrees(states: seq<FollowState>, ops: seq<Op>, n: nat)
    requires FollowRun(states, ops) && n <= |ops| && states[0].sets == map[]
    requires forall i | 0 <= i < n :: !Missed(states[i], ops[i])
    ensures Agrees(states[n].table, states[n].sets)
    decreases n
  {
    if n > 0 {
      RunAgrees(states, ops, n - 1);
      StepAgrees(states[n - 1], ops[n - 1]);
    }
  }

  // ----- The cache -------------------------------------------------------------------------

  class SubsCacher {
    var sets: Sets

    constructor ()
      ensures sets == map[]
    {
      sets := map[];
    }

    /** None is a failed command. */
    method FollowListExists(author: Uuid, up: bool) returns (r: Option<bool>)
      ensures r == if up then Some(author in sets) else None
    {
      return if up then Some(author in sets) else None;
    }

    method SubscribeUserTo(f: Subscription, answer: Answer) returns (ok: bool)
      modifies this
      ensures ok <==> answer.Acked?
      ensures sets == if answer.Applied() then Put(old(sets), f.author, Cached(old(sets), f.author) + {f.sub}) else old(sets)
    {
      if answer.Applied() {
        sets := sets[f.author := Cached(sets, f.author) + {f.sub}];
      }
      return answer.Acked?;
    }

    method UnsubscribeUserFrom(f: Subscription, answer: Answer) returns (ok: bool)
      modifies this
      ensures ok <==> answer.Acked?
      ensures sets == if answer.Applied() then Put(old(sets), f.author, Cached(old(sets), f.author) - {f.sub}) else old(sets)
    {
      if answer.Applied() {
        var rest := Cached(sets, f.author) - {f.sub};
        sets := if rest == {} then sets - {f.author} else sets[f.author := rest];
      }
      return answer.Acked?;
    }

    /** None is a missing key or a failed command. */
    method GetFollows(author: Uuid, up: bool) returns (r: Option<seq<Uuid>>)
      ensures r.Some? <==> up && author in sets
      ensures r.Some? ==> forall u: Uuid :: u in r.value <==> u in sets[author]
    {
      if !up || author !in sets {
        return None;
      }
      var subIds: seq<Uuid> := [];
      var rest := sets[author];
      while rest != {}
        invariant forall u: Uuid :: u in subIds || u in rest <==> u in sets[author]
        decreases rest
      {
        var u :| u in rest;
        rest := rest - {u};
        subIds := subIds + [u];
      }
      return Some(subIds);
    }

    /** Nothing to set is a success that sends no command. */
    method SetFollows(author: Uuid, subIds: seq<Uuid>, answer: Answer) returns (ok: bool)
      modifies this
      ensures ok <==> answer.Acked? || subIds == []
      ensures sets == if answer.Applied() && subIds != []
        then Put(old(sets), author, Cached(old(sets), author) + SetOf(subIds)) else old(sets)
    {
      if |subIds| == 0 {
        return true;
      }
      assert subIds[0] in SetOf(subIds);
      if answer.Applied() {
        sets := sets[author := Cached(sets, author) + SetOf(subIds)];
      }
      return answer.Acked?;
    }

    method Lose(authors: set<Uuid>)
      modifies this
      ensures sets == old(sets) - authors
    {
      sets := sets - authors;
    }
  }

  // ----- The wrapper -----------------------------------------------------------------------

  datatype Reply = Done | AlreadyExists | NotFound | Failure

  class UserCacheWrapper {
    const db: Database
    const subsCache: SubsCacher

    constructor (db: Database, subsCache: SubsCacher)
      ensures this.db == db && this.subsCache == subsCache
    {
      this.db, this.subsCache := db, subsCache;
    }

    ghost function At(): FollowState
      reads this, db, subsCache
    {
      FollowState(db.table, subsCache.sets)
    }

    /** tryToCacheSubs, once for all concurrent callers. */
    method TryToCacheSubs(author: Uuid, readUp: bool, cache: Commands) returns (r: Option<seq<Uuid>>)
      requires NoEmptySets(subsCache.sets)
      modifies subsCache
      ensures NoEmptySets(subsCache.sets)
      ensures At() == Refill(old(At()), author, readUp, cache)
      ensures db.table == old(db.table)
      ensures author !in old(subsCache.sets) && readUp && !cache.write.Refused? && SubsOf(db.table, author) != {} ==>
        author in subsCache.sets && subsCache.sets[author] == SubsOf(db.table, author)
      ensures r.Some? <==> readUp || (author in old(subsCache.sets) && cache.looksAgain)
      ensures r.Some? && author in old(subsCache.sets) && cache.looksAgain ==>
        forall u: Uuid :: u in r.value <==> u in old(subsCache.sets)[author]
      ensures r.Some? && !(author in old(subsCache.sets) && cache.looksAgain) ==>
        forall u: Uuid :: u in r.value <==> Subscription(u, author) in db.table
    {
      r := subsCache.GetFollows(author, cache.looksAgain);
      if r.Some? {
        return;
      }
      r := db.GetSubs(author, readUp);
      if r == None {
        return;
      }
      if |r.value| == 0 {
        assert SetOf(r.value) == {} && Cached(subsCache.sets, author) + {} == Cached(subsCache.sets, author);
      } else {
        assert r.value[0] in SetOf(r.value);
      }
      var _ := subsCache.SetFollows(author, r.value, cache.write);
    }

    /** The row is inserted by one statement outside any transaction: a caller can be told of an
        error although it was carried out, and then the cache is not told. */
    method SubscribeUserTo(f: Subscription, row: Answer, readUp: bool, cache: Commands) returns (r: Reply)
      requires NoEmptySets(subsCache.sets)
      modifies db`table, subsCache
      ensures NoEmptySets(subsCache.sets)
      ensures At() == After(old(At()), Subscribe(f, row, readUp, cache))
      ensures db.table == if !row.Refused? && f.sub != f.author then old(db.table) + {f} else old(db.table)
      ensures forall a: Uuid | a != f.author ::
        && (a in subsCache.sets <==> a in old(subsCache.sets))
        && (a in subsCache.sets ==> subsCache.sets[a] == old(subsCache.sets)[a])
      ensures row.Acked? && cache.looks && !cache.write.Refused? && f.sub != f.author ==>
        && (old(Agrees(db.table, subsCache.sets)) && f.author in old(subsCache.sets) ==>
              f.author in subsCache.sets && subsCache.sets[f.author] == old(subsCache.sets)[f.author] + {f.sub})
        && (f.author !in old(subsCache.sets) && f !in old(db.table) && readUp ==>
              f.author in subsCache.sets && subsCache.sets[f.author] == SubsOf(db.table, f.author))
      ensures r.AlreadyExists? <==> row.Acked? && f in old(db.table) && f.sub != f.author
      ensures r.Done? <==> (
        && row.Acked? && f !in old(db.table) && f.sub != f.author
        && (!cache.looks || f.author in old(subsCache.sets) || readUp))
      ensures !r.NotFound?
    {
      if row.Refused? || f.sub == f.author {
        return Failure;
      }
      if f in db.table {
        return if row.Acked? then AlreadyExists else Failure;
      }
      db.table := db.table + {f};
      if row.Unacked? {
        return Failure;
      }
      var listed := subsCache.FollowListExists(f.author, cache.looks);
      if listed == None {
        return Done;
      }
      if listed.value {
        var _ := subsCache.SubscribeUserTo(f, cache.write);
        return Done;
      }
      var subs := TryToCacheSubs(f.author, readUp, cache);
      return if subs.Some? then Done else Failure;
    }

    method UnsubscribeUserFrom(f: Subscription, row: Answer, readUp: bool, cache: Commands) returns (r: Reply)
      requires NoEmptySets(subsCache.sets)
      modifies db`table, subsCache
      ensures NoEmptySets(subsCache.sets)
      ensures At() == After(old(At()), Unsubscribe(f, row, readUp, cache))
      ensures db.table == if !row.Refused? then old(db.table) - {f} else old(db.table)
      ensures forall a: Uuid | a != f.author ::
        && (a in subsCache.sets <==> a in old(subsCache.sets))
        && (a in subsCache.sets ==> subsCache.sets[a] == old(subsCache.sets)[a])
      ensures row.Acked? && cache.looks && !cache.write.Refused? ==>
        old(Agrees(db.table, subsCache.sets)) && f.author in old(subsCache.sets) ==>
          if old(subsCache.sets)[f.author] == {f.sub} then f.author !in subsCache.sets
          else f.author in subsCache.sets && subsCache.sets[f.author] == old(subsCache.sets)[f.author] - {f.sub}
      ensures r.Done? <==> (
        && row.Acked? && f in old(db.table)
        && (!cache.looks || f.author in old(subsCache.sets) || readUp))
      ensures r.NotFound? <==> !row.Acked? || f !in old(db.table)
    {
      if row.Applied() && f in db.table {
        db.table := db.table - {f};
      } else {
        return NotFound;
      }
      // no count of affected rows came back, which is reported as not found
      if row.Unacked? {
        return NotFound;
      }
      var listed := subsCache.FollowListExists(f.author, cache.looks);
      if listed == None {
        return Done;
      }
      if listed.value {
        var _ := subsCache.UnsubscribeUserFrom(f, cache.write);
        return Done;
      }
      var subs := TryToCacheSubs(f.author, readUp, cache);
      return if subs.Some? then Done else Failure;
    }

    /** GetSubs, from the cache, from a refill, or past a broken cache. */
    method GetSubs(author: Uuid, readUp: bool, cache: Commands) returns (r: Option<seq<Uuid>>)
      requires NoEmptySets(subsCache.sets)
      modifies subsCache
      ensures NoEmptySets(subsCache.sets)
      ensures At() == After(old(At()), Op.GetSubs(author, readUp, cache))
      ensures db.table == old(db.table)
      ensures old(Agrees(db.table, subsCache.sets)) ==> forall a: Uuid :: (a in subsCache.sets <==>
        a in old(subsCache.sets) || (a == author && readUp && !cache.write.Refused? && SubsOf(db.table, a) != {}))
      ensures r.Some? <==> readUp || (author in old(subsCache.sets) && (cache.looks || cache.looksAgain))
      ensures r.Some? && author in old(subsCache.sets) && (cache.looks || cache.looksAgain) ==>
        forall u: Uuid :: u in r.value <==> u in old(subsCache.sets)[author]
      ensures r.Some? && !(author in old(subsCache.sets) && (cache.looks || cache.looksAgain)) ==>
        forall u: Uuid :: u in r.value <==> Subscription(u, author) in db.table
      ensures r.Some? && old(Agrees(db.table, subsCache.sets)) ==>
        forall u: Uuid :: u in r.value <==> Subscription(u, author) in db.table
    {
      r := subsCache.GetFollows(author, cache.looks);
      if r == None {
        r := TryToCacheSubs(author, readUp, cache);
      }
    }
  }
}
