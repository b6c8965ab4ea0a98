/** The post cache in front of the posts table: write-through, read-through, and tombstones
    for soft-deleted posts. */
module PostCache {
  import opened Model
  import opened Outbox
  import opened FeedStore
  import opened Store
  import opened PostRepositories

  type Entries = map<Uuid, Post>

  // ----- Agreement of cache and table ------------------------------------------------------

  /** An entry has the content of its row. The cache keeps the creation time to the nanosecond
      when the entry comes from the request, to the microsecond when it comes from the table. */
  predicate SameContent(entry: Post, row: Post) {
    entry.id == row.id && entry.author == row.author && entry.content == row.content
    && StoredTime(entry.createdAt) == row.createdAt
  }

  predicate EntryOk(rows: Rows, entries: Entries, id: Uuid)
    requires id in entries
  {
    id in rows && SameContent(entries[id], rows[id]) && (entries[id].Live() <==> rows[id].Live())
  }

  /** Every entry has its row's content and is a tombstone exactly when the row is deleted. */
  ghost predicate Coherent(rows: Rows, entries: Entries) {
    RowsOk(rows) && forall id | id in entries :: EntryOk(rows, entries, id)
  }

  /** What holds whatever fails: content is right, and tombstones are right. */
  ghost predicate HalfCoherent(rows: Rows, entries: Entries) {
    && RowsOk(rows)
    && forall id | id in entries ::
         id in rows && SameContent(entries[id], rows[id]) && (rows[id].Live() ==> entries[id].Live())
  }

  // ----- Effects of whole calls ------------------------------------------------------------

  datatype PostState = PostState(rows: Rows, entries: Entries)

  /** `looks` is whether the reads before a tombstone is set succeed, `write` how the write to
      the cache ends, `pipeline` which entries a read gets to write back. The cache's errors
      are logged and dropped. */
  datatype Op =
    | Add(post: Post, fault: TxFault, write: Answer)
    | Remove(id: Uuid, removeAt: Time, fault: TxFault, looks: bool, write: Answer)
    | Get(ids: seq<Uuid>, cacheUp: bool, pipeline: Pipeline)
    | Expire(keys: set<Uuid>)

  predicate Stores(s: PostState, post: Post, fault: TxFault) {
    post.id !in s.rows && (fault.Smooth? || fault == CommitFails(true))
  }

  function Tombstoned(entries: Entries, id: Uuid, removeAt: Time): Entries {
    if id in entries && entries[id].Live() then entries[id := entries[id].(deletedAt := Some(removeAt))] else entries
  }

  predicate Through(pipeline: Pipeline, id: Uuid) {
    pipeline.Delivered? || id in pipeline.reached
  }

  function LiveRows(rows: Rows, ids: seq<Uuid>, pipeline: Pipeline): Entries {
    map id | id in ids && id in rows && rows[id].Live() && Through(pipeline, id) :: rows[id]
  }

  function Missed(entries: Entries, ids: seq<Uuid>, cacheUp: bool): seq<Uuid> {
    if cacheUp then Absent(entries, ids) else ids
  }

  function Absent(entries: Entries, ids: seq<Uuid>): seq<Uuid> {
    if |ids| == 0 then []
    else
      var front := Absent(entries, ids[..|ids| - 1]);
      if ids[|ids| - 1] in entries then front else front + [ids[|ids| - 1]]
  }

  function After(s: PostState, op: Op): PostState {
    match op
    case Add(post, fault, write) =>
      PostState(if Stores(s, post, fault) then s.rows[post.id := post.Stored()] else s.rows,
            if Stores(s, post, fault) && fault.Smooth? && write.Applied() then s.entries[post.id := post] else s.entries)
    case Remove(id, removeAt, fault, looks, write) =>
      PostState(if id in s.rows && RowWritten(fault) then s.rows[id := Deleted(s.rows[id], removeAt)] else s.rows,
            if id in s.rows && Tells(fault, looks, write) then Tombstoned(s.entries, id, removeAt) else s.entries)
    case Get(ids, cacheUp, pipeline) =>
      s.(entries := s.entries + LiveRows(s.rows, Missed(s.entries, ids, cacheUp), pipeline))
    case Expire(ids) => s.(entries := s.entries - ids)
  }

  /** The cache gets to know of a delete. */
  predicate Tells(fault: TxFault, looks: bool, write: Answer) {
    fault.Smooth? && looks && write.Applied()
  }

  /** The delete of a cached post took effect in the table and the cache was not told: the call
      failed after the update of the row, or a command of the cache failed. */
  predicate Torn(s: PostState, op: Op) {
    && op.Remove?
    && RowWritten(op.fault) && !Tells(op.fault, op.looks, op.write)
    && op.id in s.rows && s.rows[op.id].Live()
    && op.id in s.entries
  }

  lemma {:induction false} AbsentIds(entries: Entries, ids: seq<Uuid>)
    ensures forall id :: id in Absent(entries, ids) <==> id in ids && id !in entries
    decreases |ids|
  {
    if |ids| > 0 { AbsentIds(entries, ids[..|ids| - 1]); }
  }

  lemma CoherentIsHalf(rows: Rows, entries: Entries)
    requires Coherent(rows, entries)
    ensures HalfCoherent(rows, entries)
  {
  }

  /** One whole call, or the expiry of any keys, keeps the cache coherent exactly when it is
      not a torn delete. */
  lemma StepCoherent(s: PostState, op: Op)
    requires Coherent(s.rows, s.entries)
    ensures var t := After(s, op); Coherent(t.rows, t.entries) <==> !Torn(s, op)
  {
  }

  /** Content and tombstones stay right even across torn deletes: the one thing that can go
      wrong is an entry that outlives its row's deletion. */
  lemma StepHalfCoherent(s: PostState, op: Op)
    requires HalfCoherent(s.rows, s.entries)
    ensures var t := After(s, op); HalfCoherent(t.rows, t.entries)
  {
  }

  ghost predicate CacheRun(states: seq<PostState>, ops: seq<Op>) {
    && |states| == |ops| + 1
    && forall i | 0 <= i < |ops| :: states[i + 1] == After(states[i], ops[i])
  }

  /** Over every run of whole calls and expiries without torn deletes the cache is coherent. */
  lemma {:induction false} RunCoherent(states: seq<PostState>, ops: seq<Op>, n: nat)
    requires CacheRun(states, ops) && n <= |ops| && states[0] == PostState(map[], map[])
    requires forall i | 0 <= i < n :: !Torn(states[i], ops[i])
    ensures Coherent(states[n].rows, states[n].entries)
    decreases n
  {
    if n > 0 {
      RunCoherent(states, ops, n - 1);
      StepCoherent(states[n - 1], ops[n - 1]);
    }
  }

  lemma {:induction false} RunHalfCoherent(states: seq<PostState>, ops: seq<Op>, n: nat)
    requires CacheRun(states, ops) && n <= |ops| && states[0] == PostState(map[], map[])
    ensures HalfCoherent(states[n].rows, states[n].entries)
    decreases n
  {
    if n > 0 {
      RunHalfCoherent(states, ops, n - 1);
      StepHalfCoherent(states[n - 1], ops[n - 1]);
    }
  }

  // ----- What a read returns ---------------------------------------------------------------

  /** Hits are live entries, in request order; misses are the absent ids. */
  function Hits(entries: Entries, ids: seq<Uuid>): seq<Post> {
    if |ids| == 0 then []
    else
      var id := ids[|ids| - 1];
      Hits(entries, ids[..|ids| - 1]) + if id in entries && entries[id].Live() then [entries[id]] else []
  }

  lemma {:induction false} HitsAre(entries: Entries, ids: seq<Uuid>)
    ensures forall p :: p in Hits(entries, ids) <==> exists id :: IsHit(entries, ids, id, p)
    decreases |ids|
  {
    var n := |ids| - 1;
    if n >= 0 {
      HitsAre(entries, ids[..n]);
      forall p ensures p in Hits(entries, ids) <==> exists id :: IsHit(entries, ids, id, p) {
        if id :| IsHit(entries, ids, id, p) {
          assert id == ids[n] || IsHit(entries, ids[..n], id, p);
        }
        if p in Hits(entries, ids) {
          if p in Hits(entries, ids[..n]) {
            var id :| IsHit(entries, ids[..n], id, p);
            assert IsHit(entries, ids, id, p);
          } else {
            assert IsHit(entries, ids, ids[n], p);
          }
        }
      }
    }
  }

  lemma HitsFound(entries: Entries, ids: seq<Uuid>)
    ensures forall p :: p in Hits(entries, ids) <==>
      exists id :: id in ids && id in entries && p == entries[id] && p.deletedAt == None
  {
    hide Hits;
    HitsAre(entries, ids);
    forall p ensures (exists id :: IsHit(entries, ids, id, p)) <==>
      exists id :: id in ids && id in entries && p == entries[id] && p.deletedAt == None
    {
      if id :| IsHit(entries, ids, id, p) {
        assert id in ids && id in entries && p == entries[id] && p.deletedAt == None;
      }
      if id :| id in ids && id in entries && p == entries[id] && p.deletedAt == None {
        assert IsHit(entries, ids, id, p);
      }
    }
  }

  predicate IsHit(entries: Entries, ids: seq<Uuid>, id: Uuid, p: Post) {
    id in ids && id in entries && p == entries[id] && p.Live()
  }

  /** A returned post is the live row with its id, up to the precision of the creation time. */
  predicate FromRow(rows: Rows, ids: seq<Uuid>, p: Post) {
    p.id in ids && p.id in rows && rows[p.id].Live() && p.Live() && p.Stored() == rows[p.id]
  }

  /** What the plain repository would return, as a set. */
  ghost predicate SameAsTable(rows: Rows, ids: seq<Uuid>, posts: seq<Post>) {
    && (forall p | p in posts :: FromRow(rows, ids, p))
    && (forall id | id in ids && id in rows && rows[id].Live() :: exists p :: p in posts && p.id == id)
  }

  lemma RowFromRow(rows: Rows, ids: seq<Uuid>, id: Uuid)
    requires RowsOk(rows) && id in ids && id in rows && rows[id].Live()
    ensures FromRow(rows, ids, rows[id]) && rows[id].id == id
  {
    assert RowOk(rows, id);
  }

  lemma HitFromRow(rows: Rows, entries: Entries, ids: seq<Uuid>, id: Uuid)
    requires Coherent(rows, entries) && id in ids && id in entries && entries[id].Live()
    ensures FromRow(rows, ids, entries[id]) && entries[id].id == id
  {
    assert EntryOk(rows, entries, id) && RowOk(rows, id);
  }

  /** Cache hits followed by database misses are, as a set, what the table alone would give;
      tombstones hide deleted posts from both halves. */
  lemma ReadIsTable(rows: Rows, entries: Entries, ids: seq<Uuid>, cacheUp: bool, found: seq<Post>)
    requires Coherent(rows, entries)
    requires IsFound(rows, Missed(entries, ids, cacheUp), found)
    ensures SameAsTable(rows, ids, (if cacheUp then Hits(entries, ids) else []) + found)
  {
    var hits := if cacheUp then Hits(entries, ids) else [];
    AbsentIds(entries, ids);
    HitsAre(entries, ids);
    forall p | p in hits + found ensures FromRow(rows, ids, p) {
      if p in hits {
        var id :| IsHit(entries, ids, id, p);
        HitFromRow(rows, entries, ids, id);
      } else {
        RowFromRow(rows, ids, p.id);
      }
    }
    forall id | id in ids && id in rows && rows[id].Live() ensures exists p :: p in hits + found && p.id == id {
      RowFromRow(rows, ids, id);
      if cacheUp && id in entries {
        assert EntryOk(rows, entries, id);
        assert IsHit(entries, ids, id, entries[id]);
        assert entries[id] in hits + found && entries[id].id == id;
      } else {
        assert rows[id] in hits + found;
      }
    }
  }

  /** Whatever failed before, a read returns a soft-deleted post if and only if it hits an
      entry that outlived the deletion. */
  lemma DeletedPostRead(rows: Rows, entries: Entries, ids: seq<Uuid>, cacheUp: bool, found: seq<Post>, id: Uuid)
    requires HalfCoherent(rows, entries) && id in rows && !rows[id].Live()
    requires IsFound(rows, Missed(entries, ids, cacheUp), found)
    ensures (exists p :: p in (if cacheUp then Hits(entries, ids) else []) + found && p.id == id)
            <==> cacheUp && id in ids && id in entries && entries[id].Live()
  {
    HitsAre(entries, ids);
    assert forall p | p in found :: p.id != id;
    if cacheUp && id in ids && id in entries && entries[id].Live() {
      assert RowOk(rows, id);
      assert IsHit(entries, ids, id, entries[id]);
      assert entries[id] in Hits(entries, ids) + found && entries[id].id == id;
    }
    if cacheUp {
      forall p | p in Hits(entries, ids) && p.id == id ensures id in ids && id in entries && entries[id].Live() {
        var i :| IsHit(entries, ids, i, p);
        assert RowOk(rows, i);
      }
    }
  }

  /** Over every run without torn deletes no read ever returns a soft-deleted post, whichever
      ids a feed asks for. */
  lemma NoDeletedPostRead(states: seq<PostState>, ops: seq<Op>, n: nat, ids: seq<Uuid>, cacheUp: bool, found: seq<Post>, p: Post)
    requires CacheRun(states, ops) && n <= |ops| && states[0] == PostState(map[], map[])
    requires forall i | 0 <= i < n :: !Torn(states[i], ops[i])
    requires IsFound(states[n].rows, Missed(states[n].entries, ids, cacheUp), found)
    requires p in (if cacheUp then Hits(states[n].entries, ids) else []) + found
    ensures p.id in ids && p.id in states[n].rows && states[n].rows[p.id].Live()
  {
    RunCoherent(states, ops, n);
    ReadIsTable(states[n].rows, states[n].entries, ids, cacheUp, found);
    assert FromRow(states[n].rows, ids, p);
  }

  // ----- Putting posts in request order ----------------------------------------------------

  /** The last post with the id, as filling a map leaves it. */
  function Pick(posts: seq<Post>, id: Uuid): Option<Post> {
    if |posts| == 0 then None
    else if posts[|posts| - 1].id == id then Some(posts[|posts| - 1])
    else Pick(posts[..|posts| - 1], id)
  }

  function InOrder(posts: seq<Post>, ids: seq<Uuid>): seq<Post> {
    if |ids| == 0 then []
    else
      InOrder(posts, ids[..|ids| - 1]) +
      match Pick(posts, ids[|ids| - 1]) { case None => [] case Some(p) => [p] }
  }

  function IdsOf(posts: seq<Post>): seq<Uuid> {
    seq(|posts|, i requires 0 <= i < |posts| => posts[i].id)
  }

  function FoundIds(posts: seq<Post>, ids: seq<Uuid>): seq<Uuid> {
    if |ids| == 0 then []
    else FoundIds(posts, ids[..|ids| - 1]) + if ids[|ids| - 1] in IdsOf(posts) then [ids[|ids| - 1]] else []
  }

  lemma {:induction false} PickFinds(posts: seq<Post>, id: Uuid)
    ensures Pick(posts, id).Some? <==> id in IdsOf(posts)
    ensures Pick(posts, id).Some? ==> Pick(posts, id).value in posts && Pick(posts, id).value.id == id
    decreases |posts|
  {
    var n := |posts| - 1;
    if n >= 0 {
      PickFinds(posts[..n], id);
      assert IdsOf(posts) == IdsOf(posts[..n]) + [posts[n].id];
    }
  }

  /** The result lists exactly the requested ids that were found, in request order. */
  lemma {:induction false} InOrderIds(posts: seq<Post>, ids: seq<Uuid>)
    ensures IdsOf(InOrder(posts, ids)) == FoundIds(posts, ids)
    ensures forall p | p in InOrder(posts, ids) :: p in posts
    decreases |ids|
  {
    var n := |ids| - 1;
    if n >= 0 {
      InOrderIds(posts, ids[..n]);
      PickFinds(posts, ids[n]);
    }
  }

  ghost predicate OnePerId(posts: seq<Post>) {
    forall p, q | p in posts && q in posts && p.id == q.id :: p == q
  }

  /** Nothing depends on the order in which hits and misses arrive. */
  lemma {:induction false} InOrderOfAnyArrival(a: seq<Post>, b: seq<Post>, ids: seq<Uuid>)
    requires OnePerId(a) && forall p :: p in a <==> p in b
    ensures InOrder(a, ids) == InOrder(b, ids)
    decreases |ids|
  {
    var n := |ids| - 1;
    if n >= 0 {
      InOrderOfAnyArrival(a, b, ids[..n]);
      PickSame(a, b, ids[n]);
    }
  }

  lemma PickSame(a: seq<Post>, b: seq<Post>, id: Uuid)
    requires OnePerId(a) && forall p :: p in a <==> p in b
    ensures Pick(a, id) == Pick(b, id)
  {
    PickFinds(a, id);
    PickFinds(b, id);
    if id in IdsOf(a) {
      var i :| 0 <= i < |a| && IdsOf(a)[i] == id;
      assert a[i] in b;
      var j :| 0 <= j < |b| && b[j] == a[i];
      assert IdsOf(b)[j] == id;
    }
    if id in IdsOf(b) {
      var i :| 0 <= i < |b| && IdsOf(b)[i] == id;
      assert b[i] in a;
      var j :| 0 <= j < |a| && a[j] == b[i];
      assert IdsOf(a)[j] == id;
    }
  }

  // ----- When the returned posts are in request order --------------------------------------

  predicate Distinct(ids: seq<Uuid>) {
    forall i, j | 0 <= i < j < |ids| :: ids[i] != ids[j]
  }

  /** Where an id stands in the request, the first time it does. */
  function Position(ids: seq<Uuid>, id: Uuid): (i: nat)
    requires id in ids
    ensures i < |ids| && ids[i] == id
  {
    if id in ids[..|ids| - 1] then Position(ids[..|ids| - 1], id) else |ids| - 1
  }

  predicate Precedes(ids: seq<Uuid>, a: Uuid, b: Uuid) {
    a in ids && b in ids && Position(ids, a) < Position(ids, b)
  }

  /** Each post was asked for before the ones after it. */
  predicate InRequestOrder(posts: seq<Post>, ids: seq<Uuid>) {
    forall i, j | 0 <= i < j < |posts| :: Precedes(ids, posts[i].id, posts[j].id)
  }

  predicate Asked(posts: seq<Post>, ids: seq<Uuid>) {
    forall p | p in posts :: p.id in ids
  }

  lemma AskedJoin(a: seq<Post>, b: seq<Post>, ids: seq<Uuid>)
    ensures InRequestOrder(a + b, ids) <==>
      InRequestOrder(a, ids) && InRequestOrder(b, ids) && forall p, q | p in a && q in b :: Precedes(ids, p.id, q.id)
  {
    var c := a + b;
    if InRequestOrder(c, ids) {
      forall i, j | 0 <= i < |a| && 0 <= j < |b| ensures Precedes(ids, a[i].id, b[j].id) {
        assert c[i] == a[i] && c[|a| + j] == b[j];
      }
      forall i, j | 0 <= i < j < |b| ensures Precedes(ids, b[i].id, b[j].id) {
        assert c[|a| + i] == b[i] && c[|a| + j] == b[j];
      }
      forall i, j | 0 <= i < j < |a| ensures Precedes(ids, a[i].id, a[j].id) {
        assert c[i] == a[i] && c[j] == a[j];
      }
    } else {
      var i, j :| 0 <= i < j < |c| && !Precedes(ids, c[i].id, c[j].id);
      assert i < |a| <= j ==> a[i] in a && b[j - |a|] in b;
    }
  }

  /** Asking for more does not change the order of what was asked for already. */
  lemma AskedMore(posts: seq<Post>, ids: seq<Uuid>)
    requires |ids| > 0 && Asked(posts, ids[..|ids| - 1])
    ensures InRequestOrder(posts, ids) <==> InRequestOrder(posts, ids[..|ids| - 1])
    ensures Asked(posts, ids)
  {
    forall i, j | 0 <= i < |posts| && 0 <= j < |posts|
      ensures Precedes(ids, posts[i].id, posts[j].id) <==> Precedes(ids[..|ids| - 1], posts[i].id, posts[j].id)
    {
      assert posts[i] in posts && posts[j] in posts;
    }
  }

  lemma {:induction false} InOrderAscends(posts: seq<Post>, ids: seq<Uuid>)
    requires Distinct(ids)
    ensures Asked(InOrder(posts, ids), ids) && InRequestOrder(InOrder(posts, ids), ids)
    decreases |ids|
  {
    var n := |ids| - 1;
    if n >= 0 {
      var front := InOrder(posts, ids[..n]);
      InOrderAscends(posts, ids[..n]);
      AskedMore(front, ids);
      PickFinds(posts, ids[n]);
      if Pick(posts, ids[n]).Some? {
        AskedJoin(front, [Pick(posts, ids[n]).value], ids);
      }
    }
  }

  lemma {:induction false} OrderedFrom(posts: seq<Post>, ids: seq<Uuid>)
    ensures forall p | p in InOrder(posts, ids) :: p in posts && p.id in ids
    decreases |ids|
  {
    hide Pick, IdsOf;
    var n := |ids| - 1;
    if n >= 0 {
      OrderedFrom(posts, ids[..n]);
      PickFinds(posts, ids[n]);
    }
  }

  lemma {:induction false} OrderedHas(posts: seq<Post>, ids: seq<Uuid>, id: Uuid) returns (q: Post)
    requires id in ids && id in IdsOf(posts)
    ensures q in InOrder(posts, ids) && q.id == id
    decreases |ids|
  {
    hide Pick, IdsOf;
    var n := |ids| - 1;
    if id in ids[..n] {
      q := OrderedHas(posts, ids[..n], id);
    } else {
      PickFinds(posts, id);
      q := Pick(posts, id).value;
    }
  }

  lemma OrderedEach(posts: seq<Post>, ids: seq<Uuid>)
    ensures forall p | p in InOrder(posts, ids) :: p in posts && p.id in ids
    ensures forall p | p in posts && p.id in ids :: exists q :: q in InOrder(posts, ids) && q.id == p.id
    ensures Distinct(ids) ==> InRequestOrder(InOrder(posts, ids), ids)
  {
    hide InOrder;
    OrderedFrom(posts, ids);
    forall p | p in posts && p.id in ids ensures exists q :: q in InOrder(posts, ids) && q.id == p.id {
      var i :| 0 <= i < |posts| && posts[i] == p;
      assert IdsOf(posts)[i] == p.id;
      var q := OrderedHas(posts, ids, p.id);
    }
    if Distinct(ids) { InOrderAscends(posts, ids); }
  }

  /** Picks of ids asked for do not depend on a last post that was not asked for. */
  lemma {:induction false} InOrderFront(front: seq<Post>, last: Post, ids: seq<Uuid>)
    requires last.id !in ids
    ensures InOrder(front + [last], ids) == InOrder(front, ids)
    decreases |ids|
  {
    if |ids| > 0 {
      InOrderFront(front, last, ids[..|ids| - 1]);
      assert (front + [last])[..|front|] == front;
    }
  }

  /** The id asked for last, if found, is the last one. */
  lemma LastAsked(posts: seq<Post>, ids: seq<Uuid>)
    requires |ids| > 0 && Distinct(ids) && Asked(posts, ids) && InRequestOrder(posts, ids)
    requires ids[|ids| - 1] in IdsOf(posts)
    ensures |posts| > 0 && posts[|posts| - 1].id == ids[|ids| - 1]
    ensures Asked(posts[..|posts| - 1], ids[..|ids| - 1])
  {
    var m, n := |posts| - 1, |ids| - 1;
    var i :| 0 <= i < |posts| && IdsOf(posts)[i] == ids[n];
    assert Position(ids, ids[n]) == n;
    assert forall j | 0 <= j < m :: Precedes(ids, posts[j].id, posts[m].id);
    forall p | p in posts[..m] ensures p.id in ids[..n] {
      var j :| 0 <= j < m && posts[j] == p;
      assert Precedes(ids, posts[j].id, posts[m].id);
      assert ids[..n][Position(ids, p.id)] == p.id;
    }
  }

  lemma AscendingFront(posts: seq<Post>, ids: seq<Uuid>)
    requires |ids| > 0 && Distinct(ids) && Asked(posts, ids) && InRequestOrder(posts, ids)
    requires ids[|ids| - 1] in IdsOf(posts)
    ensures |posts| > 0
    ensures var front := posts[..|posts| - 1];
      && Asked(front, ids[..|ids| - 1]) && InRequestOrder(front, ids[..|ids| - 1])
      && InOrder(posts, ids) == InOrder(front, ids[..|ids| - 1]) + [posts[|posts| - 1]]
      && Distinct(ids[..|ids| - 1])
  {
    hide Precedes, Asked;
    LastAsked(posts, ids);
    var front, last := posts[..|posts| - 1], posts[|posts| - 1];
    AskedMore(front, ids);
    assert posts == front + [last];
    AskedJoin(front, [last], ids);
    InOrderFront(front, last, ids[..|ids| - 1]);
  }

  lemma AscendingSkips(posts: seq<Post>, ids: seq<Uuid>)
    requires |ids| > 0 && Distinct(ids) && Asked(posts, ids) && InRequestOrder(posts, ids)
    requires ids[|ids| - 1] !in IdsOf(posts)
    ensures Distinct(ids[..|ids| - 1])
    ensures Asked(posts, ids[..|ids| - 1]) && InRequestOrder(posts, ids[..|ids| - 1])
    ensures InOrder(posts, ids) == InOrder(posts, ids[..|ids| - 1])
  {
    hide InRequestOrder;
    PickFinds(posts, ids[|ids| - 1]);
    forall p | p in posts ensures p.id in ids[..|ids| - 1] {
      var i :| 0 <= i < |posts| && posts[i] == p;
      assert IdsOf(posts)[i] == p.id;
    }
    AskedMore(posts, ids);
  }

  lemma {:induction false} AscendingIsInOrder(posts: seq<Post>, ids: seq<Uuid>)
    requires Distinct(ids) && Asked(posts, ids) && InRequestOrder(posts, ids)
    ensures InOrder(posts, ids) == posts
    decreases |ids|
  {
    hide InRequestOrder, Distinct, IdsOf;
    var n := |ids| - 1;
    if |posts| > 0 { assert posts[0] in posts; }
    if n >= 0 {
      if ids[n] in IdsOf(posts) {
        AscendingFront(posts, ids);
        AscendingIsInOrder(posts[..|posts| - 1], ids[..n]);
      } else {
        AscendingSkips(posts, ids);
        AscendingIsInOrder(posts, ids[..n]);
      }
    }
  }

  /** For distinct ids posts are in request order if and only if reordering would not change
      them. */
  lemma OrderedUnchanged(posts: seq<Post>, ids: seq<Uuid>)
    requires Distinct(ids) && Asked(posts, ids)
    ensures posts == InOrder(posts, ids) <==> InRequestOrder(posts, ids)
  {
    InOrderAscends(posts, ids);
    if InRequestOrder(posts, ids) { AscendingIsInOrder(posts, ids); }
  }

  lemma {:induction false} HitsInOrder(entries: Entries, ids: seq<Uuid>)
    requires Distinct(ids) && forall id | id in entries :: entries[id].id == id
    ensures Asked(Hits(entries, ids), ids) && InRequestOrder(Hits(entries, ids), ids)
    decreases |ids|
  {
    var n := |ids| - 1;
    if n >= 0 {
      var front := Hits(entries, ids[..n]);
      HitsInOrder(entries, ids[..n]);
      AskedMore(front, ids);
      if ids[n] in entries && entries[ids[n]].Live() {
        AskedJoin(front, [entries[ids[n]]], ids);
      }
    }
  }

  /** Nothing is returned twice for distinct ids. */
  lemma ReturnedOnce(rows: Rows, entries: Entries, ids: seq<Uuid>, cacheUp: bool, found: seq<Post>)
    requires HalfCoherent(rows, entries) && Distinct(ids)
    requires IsFound(rows, Missed(entries, ids, cacheUp), found)
    ensures Distinct(IdsOf((if cacheUp then Hits(entries, ids) else []) + found))
  {
    hide Hits, Absent, HalfCoherent;
    AbsentIds(entries, ids);
    HitsOnce(rows, entries, ids);
    DistinctJoin(if cacheUp then Hits(entries, ids) else [], found);
  }

  lemma DistinctJoin(a: seq<Post>, b: seq<Post>)
    requires Distinct(IdsOf(a)) && Distinct(IdsOf(b))
    requires forall p, q | p in a && q in b :: p.id != q.id
    ensures Distinct(IdsOf(a + b))
  {
    assert forall i | 0 <= i < |a| :: a[i] in a;
    assert forall j | 0 <= j < |b| :: b[j] in b;
    assert IdsOf(a + b) == IdsOf(a) + IdsOf(b);
  }

  lemma HitsOnce(rows: Rows, entries: Entries, ids: seq<Uuid>)
    requires HalfCoherent(rows, entries) && Distinct(ids)
    ensures Distinct(IdsOf(Hits(entries, ids)))
    ensures forall p | p in Hits(entries, ids) :: p.id in entries
  {
    hide Hits, Distinct;
    HitsAre(entries, ids);
    assert forall id | id in entries :: RowOk(rows, id);
    HitsInOrder(entries, ids);
    OrderedOnce(Hits(entries, ids), ids);
    forall p | p in Hits(entries, ids) ensures p.id in entries {
      var id :| IsHit(entries, ids, id, p);
    }
  }

  lemma OrderedOnce(posts: seq<Post>, ids: seq<Uuid>)
    requires InRequestOrder(posts, ids)
    ensures Distinct(IdsOf(posts))
  {
    assert forall i, j | 0 <= i < j < |posts| :: Precedes(ids, posts[i].id, posts[j].id);
  }

  /** GetPostsWithIds returns the posts as its reordering loop would order them if and only if
      the table gave the missed ones in request order and asked for none of them before a hit. */
  lemma ReturnedInOrder(rows: Rows, entries: Entries, ids: seq<Uuid>, cacheUp: bool, found: seq<Post>)
    requires HalfCoherent(rows, entries) && Distinct(ids)
    requires IsFound(rows, Missed(entries, ids, cacheUp), found)
    ensures var hits := if cacheUp then Hits(entries, ids) else [];
      hits + found == InOrder(hits + found, ids) <==>
        InRequestOrder(found, ids) && forall p, q | p in hits && q in found :: Precedes(ids, p.id, q.id)
  {
    var hits := if cacheUp then Hits(entries, ids) else [];
    AbsentIds(entries, ids);
    assert forall id | id in entries :: RowOk(rows, id);
    HitsInOrder(entries, ids);
    OrderedUnchanged(hits + found, ids);
    AskedJoin(hits, found, ids);
  }

  /** A missed post that was asked for before a cached one comes after it. */
  lemma MissBeforeHit(missed: Post, cached: Post)
    requires missed.id != cached.id && missed.Live() && cached.Live()
    ensures var rows, entries := map[missed.id := missed, cached.id := cached], map[cached.id := cached];
      var ids := [missed.id, cached.id];
      && IsFound(rows, Missed(entries, ids, true), [missed])
      && Hits(entries, ids) + [missed] == [cached, missed]
      && InOrder([cached, missed], ids) == [missed, cached]
  {
    hide Hits, Absent, InOrder, Pick;
    var entries, posts := map[cached.id := cached], [cached, missed];
    OneAsked(entries, posts, missed.id);
    AskedNext(entries, posts, [missed.id], cached.id);
    assert [missed.id] + [cached.id] == [missed.id, cached.id];
    PickOfTwo(cached, missed);
  }

  lemma PickOfTwo(a: Post, b: Post)
    requires a.id != b.id
    ensures Pick([a, b], a.id) == Some(a) && Pick([a, b], b.id) == Some(b)
  {
    assert [a, b][..1] == [a];
  }

  lemma OneAsked(entries: Entries, posts: seq<Post>, id: Uuid)
    ensures Absent(entries, [id]) == if id in entries then [] else [id]
    ensures Hits(entries, [id]) == if id in entries && entries[id].Live() then [entries[id]] else []
    ensures InOrder(posts, [id]) == match Pick(posts, id) { case None => [] case Some(p) => [p] }
  {
    hide Pick;
    assert [id][..0] == [];
  }

  lemma AskedNext(entries: Entries, posts: seq<Post>, ids: seq<Uuid>, id: Uuid)
    ensures Absent(entries, ids + [id]) == Absent(entries, ids) + if id in entries then [] else [id]
    ensures Hits(entries, ids + [id]) == Hits(entries, ids) + if id in entries && entries[id].Live() then [entries[id]] else []
    ensures InOrder(posts, ids + [id]) == InOrder(posts, ids) + match Pick(posts, id) { case None => [] case Some(p) => [p] }
  {
    hide Pick;
    assert (ids + [id])[..|ids|] == ids;
  }

  /** The cache after writing the posts one after the other, as far as the pipeline got. */
  function Written(entries: Entries, posts: seq<Post>, pipeline: Pipeline): Entries {
    if |posts| == 0 then entries
    else
      var post, front := posts[|posts| - 1], Written(entries, posts[..|posts| - 1], pipeline);
      if Through(pipeline, post.id) then front[post.id := post] else front
  }

  lemma {:induction false} WrittenAt(entries: Entries, posts: seq<Post>, pipeline: Pipeline, id: Uuid)
    ensures var w, p := Written(entries, posts, pipeline), Pick(posts, id);
      if p.Some? && Through(pipeline, id) then id in w && w[id] == p.value
      else (id in w <==> id in entries) && (id in entries ==> w[id] == entries[id])
    decreases |posts|
  {
    if |posts| > 0 { WrittenAt(entries, posts[..|posts| - 1], pipeline, id); }
  }

  lemma WrittenEach(entries: Entries, posts: seq<Post>, pipeline: Pipeline)
    ensures (forall i, j | 0 <= i < j < |posts| :: posts[i].id != posts[j].id) ==>
      forall p | p in posts && Through(pipeline, p.id) ::
        p.id in Written(entries, posts, pipeline) && Written(entries, posts, pipeline)[p.id] == p
    ensures forall id: Uuid | forall p | p in posts && Through(pipeline, p.id) :: p.id != id ::
      var w := Written(entries, posts, pipeline);
      (id in w <==> id in entries) && (id in w ==> w[id] == entries[id])
  {
    hide Written, Pick, IdsOf;
    forall p | p in posts && Through(pipeline, p.id) && forall i, j | 0 <= i < j < |posts| :: posts[i].id != posts[j].id
      ensures p.id in Written(entries, posts, pipeline) && Written(entries, posts, pipeline)[p.id] == p
    {
      WrittenAt(entries, posts, pipeline, p.id);
      OnlyPick(posts, p);
    }
    forall id: Uuid | forall p | p in posts && Through(pipeline, p.id) :: p.id != id
      ensures var w := Written(entries, posts, pipeline); (id in w <==> id in entries) && (id in w ==> w[id] == entries[id])
    {
      WrittenAt(entries, posts, pipeline, id);
      PickFinds(posts, id);
    }
  }

  lemma OnlyPick(posts: seq<Post>, p: Post)
    requires p in posts && forall i, j | 0 <= i < j < |posts| :: posts[i].id != posts[j].id
    ensures Pick(posts, p.id) == Some(p)
  {
    PickFinds(posts, p.id);
    var i :| 0 <= i < |posts| && posts[i] == p;
    assert IdsOf(posts)[i] == p.id;
    var q := Pick(posts, p.id).value;
    var j :| 0 <= j < |posts| && posts[j] == q;
    assert i == j;
  }

  /** Writing back what the table returned for the missed ids. */
  lemma WrittenBack(rows: Rows, entries: Entries, ids: seq<Uuid>, found: seq<Post>, pipeline: Pipeline)
    requires RowsOk(rows) && IsFound(rows, ids, found)
    ensures Written(entries, found, pipeline) == entries + LiveRows(rows, ids, pipeline)
  {
    var w, e := Written(entries, found, pipeline), entries + LiveRows(rows, ids, pipeline);
    forall id: Uuid
      ensures id in w <==> id in e
      ensures id in w ==> w[id] == e[id]
    {
      WrittenAt(entries, found, pipeline, id);
      PickRow(rows, ids, found, id);
    }
  }

  lemma PickRow(rows: Rows, ids: seq<Uuid>, found: seq<Post>, id: Uuid)
    requires RowsOk(rows) && IsFound(rows, ids, found)
    ensures Pick(found, id) == if id in LiveRows(rows, ids, Delivered) then Some(rows[id]) else None
  {
    PickFinds(found, id);
    assert forall i | 0 <= i < |found| :: found[i] in found;
    if id in LiveRows(rows, ids, Delivered) {
      assert RowOk(rows, id);
      var i :| 0 <= i < |found| && found[i] == rows[id];
      assert IdsOf(found)[i] == id;
    }
  }

  // ----- The cache -------------------------------------------------------------------------

  datatype CacheResult = CacheOk | CacheNotFound | CacheAlreadyDeleted | CacheError

  class PostCacher {
    var entries: Entries

    constructor ()
      ensures entries == map[]
    {
      entries := map[];
    }

    method RemovePostById(id: Uuid, removeAt: Time, looks: bool, write: Answer) returns (r: CacheResult)
      modifies this
      ensures entries == if looks && !write.Refused? && id in old(entries) && old(entries)[id].deletedAt == None
        then old(entries)[id := old(entries)[id].(deletedAt := Some(removeAt))] else old(entries)
      ensures r.CacheNotFound? <==> looks && id !in old(entries)
      ensures r.CacheAlreadyDeleted? <==> looks && id in old(entries) && old(entries)[id].deletedAt.Some?
      ensures r.CacheOk? <==> looks && write.Acked? && id in old(entries) && old(entries)[id].deletedAt == None
    {
      if !looks {
        return CacheError;
      }
      if id !in entries {
        return CacheNotFound;
      }
      if !entries[id].Live() {
        return CacheAlreadyDeleted;
      }
      if write.Applied() {
        entries := entries[id := entries[id].(deletedAt := Some(removeAt))];
      }
      return if write.Acked? then CacheOk else CacheError;
    }

    method AddPost(post: Post, write: Answer) returns (ok: bool)
      modifies this
      ensures ok <==> write.Acked?
      ensures entries == if write.Refused? then old(entries) else old(entries)[post.id := post]
    {
      if write.Applied() {
        entries := entries[post.id := post];
      }
      return write.Acked?;
    }

    method AddPosts(posts: seq<Post>, pipeline: Pipeline) returns (ok: bool)
      modifies this
      ensures ok <==> pipeline.Delivered?
      ensures entries == Written(old(entries), posts, pipeline)
      ensures (forall i, j | 0 <= i < j < |posts| :: posts[i].id != posts[j].id) ==>
        forall p | p in posts && (pipeline.Delivered? || p.id in pipeline.reached) :: p.id in entries && entries[p.id] == p
      ensures forall id: Uuid | forall p | p in posts && (pipeline.Delivered? || p.id in pipeline.reached) :: p.id != id ::
        (id in entries <==> id in old(entries)) && (id in entries ==> entries[id] == old(entries)[id])
    {
      for i := 0 to |posts|
        invariant entries == Written(old(entries), posts[..i], pipeline)
      {
        assert posts[..i + 1][..i] == posts[..i];
        if Through(pipeline, posts[i].id) {
          entries := entries[posts[i].id := posts[i]];
        }
      }
      assert posts[..|posts|] == posts;
      WrittenEach(old(entries), posts, pipeline);
      return pipeline.Delivered?;
    }

    /** None is a failed read. */
    method GetPostsWithIds(ids: seq<Uuid>, up: bool) returns (r: Option<(seq<Post>, seq<Uuid>)>)
      ensures r == if up || ids == [] then Some((Hits(entries, ids), Absent(entries, ids))) else None
      ensures r.Some? ==> forall p :: p in r.value.0 <==>
        exists id :: id in ids && id in entries && p == entries[id] && p.deletedAt == None
      ensures r.Some? ==> forall id :: id in r.value.1 <==> id in ids && id !in entries
    {
      HitsFound(entries, ids);
      AbsentIds(entries, ids);
      if |ids| == 0 {
        return Some(([], []));
      }
      if !up {
        return None;
      }
      var posts, missedPostsIds: seq<Uuid> := [], [];
      for i := 0 to |ids|
        invariant posts == Hits(entries, ids[..i]) && missedPostsIds == Absent(entries, ids[..i])
      {
        assert ids[..i + 1][..i] == ids[..i];
        if ids[i] !in entries {
          missedPostsIds := missedPostsIds + [ids[i]];
        } else if entries[ids[i]].Live() {
          posts := posts + [entries[ids[i]]];
        }
      }
      assert ids[..|ids|] == ids;
      return Some((posts, missedPostsIds));
    }

    /** Keys run out of time to live, or are evicted. */
    method Lose(ids: set<Uuid>)
      modifies this
      ensures entries == old(entries) - ids
    {
      entries := entries - ids;
    }
  }

  lemma NothingAsked(entries: Entries)
    ensures Hits(entries, []) == [] && Absent(entries, []) == []
  {
  }

  lemma NothingMissed(entries: Entries, ids: seq<Uuid>, cacheUp: bool)
    ensures Missed(entries, ids, cacheUp) != [] <==> exists id :: id in ids && !(cacheUp && id in entries)
  {
    hide Absent;
    AbsentIds(entries, ids);
    var missed := Missed(entries, ids, cacheUp);
    if missed != [] {
      assert missed[0] in missed;
      assert missed[0] in ids && !(cacheUp && missed[0] in entries);
    }
    if id :| id in ids && !(cacheUp && id in entries) {
      assert id in missed;
    }
  }

  /** What a read returns and what it leaves in the cache, id by id. */
  lemma ReadInFull(rows: Rows, entries: Entries, ids: seq<Uuid>, cacheUp: bool, found: seq<Post>, pipeline: Pipeline)
    requires RowsOk(rows) && IsFound(rows, Missed(entries, ids, cacheUp), found)
    ensures forall p :: p in (if cacheUp then Hits(entries, ids) else []) + found <==>
      p.deletedAt == None && exists id :: (
        && id in ids
        && if cacheUp && id in entries then p == entries[id] else id in rows && p == rows[id])
    ensures var after := entries + LiveRows(rows, Missed(entries, ids, cacheUp), pipeline);
      forall id: Uuid ::
        var written := id in ids && !(cacheUp && id in entries) && id in rows
          && rows[id].deletedAt == None && (pipeline.Delivered? || id in pipeline.reached);
        && (id in after <==> id in entries || written)
        && (id in after ==> after[id] == if written then rows[id] else entries[id])
  {
    hide Hits, Absent;
    AbsentIds(entries, ids);
    HitsFound(entries, ids);
    var hits := if cacheUp then Hits(entries, ids) else [];
    forall p | p in found ensures p.id in ids && !(cacheUp && p.id in entries) && p.id in rows && p == rows[p.id] && p.deletedAt == None {
    }
    forall id, p | id in ids && !(cacheUp && id in entries) && id in rows && p == rows[id] && p.deletedAt == None
      ensures p in found
    {
      assert id in Missed(entries, ids, cacheUp);
    }
  }

  lemma ReadCoherent(rows: Rows, entries: Entries, ids: seq<Uuid>, cacheUp: bool, found: seq<Post>, pipeline: Pipeline)
    requires IsFound(rows, Missed(entries, ids, cacheUp), found)
    ensures Coherent(rows, entries) ==>
      var posts := (if cacheUp then Hits(entries, ids) else []) + found;
      && Coherent(rows, entries + LiveRows(rows, Missed(entries, ids, cacheUp), pipeline))
      && SameAsTable(rows, ids, posts) && (Distinct(ids) ==> Distinct(IdsOf(posts)))
  {
    hide Coherent, HalfCoherent, SameAsTable, IsFound, Distinct;
    if Coherent(rows, entries) {
      ReadIsTable(rows, entries, ids, cacheUp, found);
      CoherentIsHalf(rows, entries);
      if Distinct(ids) { ReturnedOnce(rows, entries, ids, cacheUp, found); }
      StepCoherent(PostState(rows, entries), Get(ids, cacheUp, pipeline));
    }
  }

  // ----- The wrapper -----------------------------------------------------------------------

  class PostCacheWrapper {
    const postRepo: PostRepository
    const postCache: PostCacher

    constructor (postRepo: PostRepository, postCache: PostCacher)
      ensures this.postRepo == postRepo && this.postCache == postCache
    {
      this.postRepo, this.postCache := postRepo, postCache;
    }

    ghost function At(): PostState
      reads this, postRepo, postRepo.db, postCache
    {
      PostState(postRepo.db.rows, postCache.entries)
    }

    method RemovePost(payload: Post, removeAt: Time, event: Uuid, at: Time, fault: TxFault, looks: bool, write: Answer)
      returns (r: Result)
      requires event !in postRepo.db.outbox
      modifies postRepo.db`rows, postRepo.db`outbox, postCache
      ensures At() == After(old(At()), Remove(payload.id, removeAt, fault, looks, write))
      ensures r.Ok? <==> fault.Smooth? && payload.id in old(postRepo.db.rows)
      ensures r.NotFound? <==> (fault.Smooth? || fault.QueueFails? || fault.CommitFails?) && payload.id !in old(postRepo.db.rows)
      ensures payload.id in old(postRepo.db.rows) && (fault.Smooth? || fault == WriteFails(true) || fault.QueueFails? || fault.CommitFails?) ==>
        postRepo.db.rows == old(postRepo.db.rows)[payload.id := old(postRepo.db.rows)[payload.id].(deletedAt := Some(StoredTime(removeAt)))]
      ensures payload.id !in old(postRepo.db.rows) || fault.BeginFails? || fault == WriteFails(false) ==>
        postRepo.db.rows == old(postRepo.db.rows)
      ensures postRepo.db.outbox == if payload.id in old(postRepo.db.rows) && (fault.Smooth? || fault == CommitFails(true))
        then old(postRepo.db.outbox)[event := Event(event, PostDeleted, payload, at, false)] else old(postRepo.db.outbox)
      ensures postCache.entries ==
        if r.Ok? && looks && !write.Refused? && payload.id in old(postCache.entries) && old(postCache.entries)[payload.id].deletedAt == None
        then old(postCache.entries)[payload.id := old(postCache.entries)[payload.id].(deletedAt := Some(removeAt))]
        else old(postCache.entries)
      ensures old(postRepo.Retractable(payload, at)) ==> Leading(old(postRepo.db.Now()), postRepo.db.Now())
    {
      r := postRepo.RemovePost(payload, removeAt, event, at, fault);
      if r != Ok {
        return;
      }
      // an error of the cache is logged and dropped
      var _ := postCache.RemovePostById(payload.id, removeAt, looks, write);
    }

    method AddPost(post: Post, event: Uuid, at: Time, fault: TxFault, write: Answer) returns (r: Result)
      requires event !in postRepo.db.outbox
      modifies postRepo.db`rows, postRepo.db`outbox, postCache
      ensures At() == After(old(At()), Add(post, fault, write))
      ensures r.Ok? <==> fault.Smooth? && post.id !in old(postRepo.db.rows)
      ensures r.AlreadyExists? <==> (fault.Smooth? || fault.QueueFails? || fault.CommitFails?) && post.id in old(postRepo.db.rows)
      ensures post.id !in old(postRepo.db.rows) && (fault.Smooth? || fault == CommitFails(true)) ==>
        && postRepo.db.rows == old(postRepo.db.rows)[post.id := post.Stored()]
        && postRepo.db.outbox == old(postRepo.db.outbox)[event := Event(event, PostAdded, post, at, false)]
      ensures post.id in old(postRepo.db.rows) || !(fault.Smooth? || fault == CommitFails(true)) ==>
        postRepo.db.rows == old(postRepo.db.rows) && postRepo.db.outbox == old(postRepo.db.outbox)
      ensures postCache.entries == if r.Ok? && !write.Refused? then old(postCache.entries)[post.id := post] else old(postCache.entries)
      ensures Leading(old(postRepo.db.Now()), postRepo.db.Now())
    {
      r := postRepo.AddPost(post, event, at, fault);
      if r != Ok {
        return;
      }
      var _ := postCache.AddPost(post, write);
    }

    /** postById and orderedPosts of GetPostsWithIds, which returns the unordered posts. */
    method OrderPosts(posts: seq<Post>, ids: seq<Uuid>) returns (orderedPosts: seq<Post>)
      ensures orderedPosts == InOrder(posts, ids)
      ensures forall p | p in orderedPosts :: p in posts && p.id in ids
      ensures forall p | p in posts && p.id in ids :: exists q :: q in orderedPosts && q.id == p.id
      ensures Distinct(ids) ==> InRequestOrder(orderedPosts, ids)
    {
      OrderedEach(posts, ids);
      var postById: map<Uuid, Post> := map[];
      for i := 0 to |posts|
        invariant forall id: Uuid :: id in postById <==> Pick(posts[..i], id).Some?
        invariant forall id: Uuid | id in postById :: Pick(posts[..i], id) == Some(postById[id])
      {
        assert posts[..i + 1][..i] == posts[..i];
        postById := postById[posts[i].id := posts[i]];
      }
      assert posts[..|posts|] == posts;
      orderedPosts := [];
      for i := 0 to |ids|
        invariant orderedPosts == InOrder(posts, ids[..i])
      {
        assert ids[..i + 1][..i] == ids[..i];
        if ids[i] in postById {
          orderedPosts := orderedPosts + [postById[ids[i]]];
        }
      }
      assert ids[..|ids|] == ids;
    }

    /** GetPostsWithIds; None when the database cannot be read and has to be. */
    method GetPostsWithIds(ids: seq<Uuid>, cacheUp: bool, dbUp: bool, pipeline: Pipeline) returns (r: Option<seq<Post>>)
      requires RowsOk(postRepo.db.rows)
      modifies postCache
      ensures r == None <==> !dbUp && Missed(old(postCache.entries), ids, cacheUp) != []
      ensures r == None <==> !dbUp && exists id :: id in ids && !(cacheUp && id in old(postCache.entries))
      ensures At() == if r == None then old(At()) else After(old(At()), Get(ids, cacheUp, pipeline))
      ensures forall id: Uuid ::
        var written := r.Some? && id in ids && !(cacheUp && id in old(postCache.entries)) && id in postRepo.db.rows
          && postRepo.db.rows[id].deletedAt == None && (pipeline.Delivered? || id in pipeline.reached);
        && (id in postCache.entries <==> id in old(postCache.entries) || written)
        && (id in postCache.entries ==>
              postCache.entries[id] == if written then postRepo.db.rows[id] else old(postCache.entries)[id])
      ensures r.Some? ==> forall p :: p in r.value <==>
        p.deletedAt == None && exists id :: (
          && id in ids
          && if cacheUp && id in old(postCache.entries) then p == old(postCache.entries)[id]
             else id in postRepo.db.rows && p == postRepo.db.rows[id])
      ensures r.Some? ==> exists found ::
        && IsFound(postRepo.db.rows, Missed(old(postCache.entries), ids, cacheUp), found)
        && r.value == (if cacheUp then Hits(old(postCache.entries), ids) else []) + found
      ensures Coherent(old(At()).rows, old(At()).entries) ==> Coherent(At().rows, At().entries)
      ensures r.Some? && Coherent(old(At()).rows, old(At()).entries) ==>
        SameAsTable(postRepo.db.rows, ids, r.value) && (Distinct(ids) ==> Distinct(IdsOf(r.value)))
    {
      hide Coherent, HalfCoherent, SameAsTable, IsFound, Distinct, RowsOk, Hits, Absent, LiveRows;
      hide InOrder, InRequestOrder, IdsOf;
      ghost var rows, entries := postRepo.db.rows, postCache.entries;
      NothingAsked(entries);
      NothingMissed(entries, ids, cacheUp);
      var read := postCache.GetPostsWithIds(ids, cacheUp);
      var cachedPosts, missedPostsIds := [], ids;
      if read.Some? {
        cachedPosts, missedPostsIds := read.value.0, read.value.1;
      }
      assert missedPostsIds == Missed(entries, ids, cacheUp);
      var found := FetchMissed(missedPostsIds, dbUp, pipeline);
      if found == None {
        return None;
      }
      ReadInFull(rows, entries, ids, cacheUp, found.value, pipeline);
      ReadCoherent(rows, entries, ids, cacheUp, found.value, pipeline);
      var _ := OrderPosts(cachedPosts + found.value, ids);
      return Some(cachedPosts + found.value);
    }

    /** The misses are read from the table and written to the cache, as far as that works. */
    method FetchMissed(missed: seq<Uuid>, dbUp: bool, pipeline: Pipeline) returns (r: Option<seq<Post>>)
      requires RowsOk(postRepo.db.rows)
      modifies postCache
      ensures r == None <==> missed != [] && !dbUp
      ensures r == None ==> postCache.entries == old(postCache.entries)
      ensures r.Some? ==> IsFound(postRepo.db.rows, missed, r.value)
      ensures r.Some? ==> postCache.entries == old(postCache.entries) + LiveRows(postRepo.db.rows, missed, pipeline)
    {
      if |missed| == 0 {
        return Some([]);
      }
      r := postRepo.GetPostsWithIds(missed, dbUp);
      if r.Some? {
        WrittenBack(postRepo.db.rows, postCache.entries, missed, r.value, pipeline);
        var _ := postCache.AddPosts(r.value, pipeline);
      }
    }
  }
}
