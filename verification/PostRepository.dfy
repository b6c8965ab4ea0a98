/** The posts table: transactions that may fail at any statement, and the page queries. */
module PostRepositories {
  import opened Model
  import opened Paging
  import opened Outbox
  import opened FeedStore
  import opened Store

  datatype Result = Ok | NotFound | AlreadyExists | Error

  /** The statement a call fails at. A statement outside a transaction, and a commit, may have
      taken effect although they report an error. */
  datatype TxFault = Smooth | BeginFails | WriteFails(applied: bool) | QueueFails | CommitFails(applied: bool)

  // ----- Pages of an author's posts --------------------------------------------------------

  function RowKey(row: Post): Key {
    Key(row.createdAt, row.id)
  }

  function RowKeys(posts: seq<Post>): (q: seq<Key>)
    ensures |q| == |posts| && forall i | 0 <= i < |posts| :: q[i] == RowKey(posts[i])
  {
    seq(|posts|, i requires 0 <= i < |posts| => RowKey(posts[i]))
  }

  predicate IsLiveOf(rows: Rows, author: Uuid, id: Uuid) {
    id in rows && rows[id].author == author && rows[id].Live()
  }

  /** The author's live posts in (created_at, id) order. */
  function AuthorKeys(rows: Rows, author: Uuid): set<Key> {
    set id | id in rows && IsLiveOf(rows, author, id) :: Key(rows[id].createdAt, id)
  }

  /** The cursor as the query receives it: timestamptz keeps whole microseconds. */
  function QueryCursor(cursor: Option<Cursor>): Option<Key> {
    match cursor
    case None => None
    case Some(c) => Some(Key(StoredTime(c.lastTime), c.lastId))
  }

  ghost predicate RowsOk(rows: Rows) {
    forall p | p in rows :: RowOk(rows, p)
  }

  /** deleted_at never returns to null. */
  lemma {:induction false} StaysDeleted(states: seq<State>, actions: seq<Action>, limit: nat, i: nat, n: nat, post: Uuid)
    requires Run(states, actions, limit) && i <= n <= |actions|
    requires post in states[i].rows && !states[i].rows[post].Live()
    ensures post in states[n].rows && !states[n].rows[post].Live()
    decreases n
  {
    if i < n { StaysDeleted(states, actions, limit, i, n - 1, post); }
  }

  // ----- Reading a page row by row ---------------------------------------------------------

  /** Of the keys to be listed, posts has the newest, in order, and rest has the others. */
  ghost predicate Collected(rows: Rows, below: set<Key>, rest: set<Uuid>, posts: seq<Post>) {
    && (forall id | id in rest :: id in rows && Key(rows[id].createdAt, id) in below)
    && (forall k | k in RowKeys(posts) :: k in below)
    && (forall k | k in below && k !in RowKeys(posts) :: k.id in rest && rows[k.id].createdAt == k.time)
    && (forall id, k | id in rest && k in RowKeys(posts) :: Before(Key(rows[id].createdAt, id), k))
    && Descending(RowKeys(posts))
  }

  lemma NoneCollected(rows: Rows, author: Uuid, cursor: Option<Key>, rest: set<Uuid>)
    requires forall id :: id in rest <==> id in rows && IsLiveOf(rows, author, id) && Under(Key(rows[id].createdAt, id), cursor)
    ensures Collected(rows, Below(AuthorKeys(rows, author), cursor), rest, [])
  {
    assert RowKeys([]) == [];
  }

  predicate IsNewestRow(rows: Rows, ids: set<Uuid>, top: Uuid) {
    && top in ids && top in rows
    && forall id | id in ids && id != top && id in rows :: Before(Key(rows[id].createdAt, id), Key(rows[top].createdAt, top))
  }

  lemma CollectNext(rows: Rows, below: set<Key>, rest: set<Uuid>, posts: seq<Post>, id: Uuid)
    requires Collected(rows, below, rest, posts)
    requires IsNewestRow(rows, rest, id) && rows[id].id == id
    ensures Collected(rows, below, rest - {id}, posts + [rows[id]])
  {
    RowKeysNext(posts, rows[id]);
    JoinDescending(RowKeys(posts), [RowKey(rows[id])]);
  }

  lemma CollectedPage(rows: Rows, author: Uuid, cursor: Option<Key>, limit: nat, rest: set<Uuid>, posts: seq<Post>)
    requires Collected(rows, Below(AuthorKeys(rows, author), cursor), rest, posts)
    requires |posts| <= limit && (|posts| == limit || rest == {})
    ensures RowKeys(posts) == Page(AuthorKeys(rows, author), cursor, limit)
  {
    hide Page;
    var keys := AuthorKeys(rows, author);
    forall k | k in Below(keys, cursor) && k !in RowKeys(posts)
      ensures |posts| == limit && forall j | j in RowKeys(posts) :: Before(k, j)
    {
      assert k.id in rest && k == Key(rows[k.id].createdAt, k.id);
    }
    PageUnique(keys, cursor, limit, RowKeys(posts));
  }

  lemma RowKeysNext(posts: seq<Post>, row: Post)
    ensures RowKeys(posts + [row]) == RowKeys(posts) + [RowKey(row)]
  {
  }

  /** The page in terms of the rows: live posts of the author strictly below the cursor, newest
      first, at most `limit`; what is left out is older than a full page. */
  lemma PageOfRows(rows: Rows, author: Uuid, cursor: Option<Key>, limit: nat, posts: seq<Post>)
    requires RowsOk(rows) && RowKeys(posts) == Page(AuthorKeys(rows, author), cursor, limit)
    requires forall p | p in posts :: p.id in rows && p == rows[p.id] && IsLiveOf(rows, author, p.id)
    ensures |posts| <= limit
    ensures forall p | p in posts ::
      && p.id in rows && p == rows[p.id] && p.author == author && p.deletedAt == None
      && (cursor.Some? ==> p.createdAt < cursor.value.time || (p.createdAt == cursor.value.time && p.id < cursor.value.id))
    ensures forall i, j | 0 <= i < j < |posts| ::
      posts[j].createdAt < posts[i].createdAt || (posts[j].createdAt == posts[i].createdAt && posts[j].id < posts[i].id)
    ensures forall id | id in rows && rows[id] !in posts && rows[id].author == author && rows[id].deletedAt == None
      && (cursor.Some? ==> rows[id].createdAt < cursor.value.time || (rows[id].createdAt == cursor.value.time && id < cursor.value.id)) ::
      |posts| == limit && forall p | p in posts ::
        rows[id].createdAt < p.createdAt || (rows[id].createdAt == p.createdAt && id < p.id)
  {
    hide Page;
    var keys, q := AuthorKeys(rows, author), RowKeys(posts);
    PageIsPage(keys, cursor, limit);
    forall p | p in posts ensures RowKey(p) in q {
      var i :| 0 <= i < |posts| && posts[i] == p;
      assert q[i] == RowKey(p);
    }
    forall id | id in rows && rows[id] !in posts && IsLiveOf(rows, author, id) && Under(Key(rows[id].createdAt, id), cursor)
      ensures |posts| == limit && forall j | j in q :: Before(Key(rows[id].createdAt, id), j)
    {
      LeftOutRow(rows, posts, id);
      assert Key(rows[id].createdAt, id) in keys;
    }
  }

  lemma RowTime(rows: Rows, id: Uuid)
    requires RowsOk(rows) && id in rows
    ensures rows[id].id == id && StoredTime(rows[id].createdAt) == rows[id].createdAt
  {
    assert RowOk(rows, id);
  }

  lemma LeftOutRow(rows: Rows, posts: seq<Post>, id: Uuid)
    requires RowsOk(rows) && id in rows && rows[id] !in posts
    requires forall p | p in posts :: p.id in rows && p == rows[p.id]
    ensures Key(rows[id].createdAt, id) !in RowKeys(posts)
  {
    assert RowOk(rows, id);
    assert forall i | 0 <= i < |posts| :: posts[i] in posts;
  }

  class PostRepository {
    const db: Database

    constructor (db: Database)
      ensures this.db == db
    {
      this.db := db;
    }

    /** AddPost: row and event are written in one transaction, both or neither. */
    method AddPost(post: Post, event: Uuid, at: Time, fault: TxFault) returns (r: Result)
      requires event !in db.outbox
      modifies db`rows, db`outbox
      ensures r.Ok? || (fault == CommitFails(true) && post.id !in old(db.rows)) ==>
        && post.id !in old(db.rows)
        && db.rows == old(db.rows)[post.id := post.Stored()]
        && db.outbox == old(db.outbox)[event := Event(event, PostAdded, post, at, false)]
      ensures !r.Ok? && !(fault == CommitFails(true) && post.id !in old(db.rows)) ==>
        db.rows == old(db.rows) && db.outbox == old(db.outbox)
      ensures r.Ok? <==> fault.Smooth? && post.id !in old(db.rows)
      ensures r.AlreadyExists? <==> (fault.Smooth? || fault.QueueFails? || fault.CommitFails?) && post.id in old(db.rows)
      ensures !r.NotFound?
      ensures Leading(old(db.Now()), db.Now())
    {
      LeadingStay(db.Now());
      if fault.BeginFails? || fault.WriteFails? {
        return Error;
      }
      var rows, outbox := db.rows, db.outbox;
      if post.id in rows {
        return AlreadyExists;
      }
      rows := rows[post.id := post.Stored()];
      if fault.QueueFails? {
        return Error;
      }
      outbox := outbox[event := Event(event, PostAdded, post, at, false)];
      if fault == CommitFails(false) {
        return Error;
      }
      ServedLeads(db.Now(), Produce(post, event, at));
      db.rows, db.outbox := rows, outbox;
      return if fault.CommitFails? then Error else Ok;
    }

    /** How the delete request calls RemovePost: with the post as re-read from the table, in a
        transaction that began after the adding one committed. */
    ghost predicate Retractable(payload: Post, at: Time)
      reads db
    {
      payload.id in db.rows ==> ReadBack(db.rows, payload) && AfterAdded(db.outbox, payload.id, at)
    }

    /** RemovePost: the row is updated outside the transaction that queues the event, so a
        later failure leaves a soft-deleted row without a deleted event. */
    method RemovePost(payload: Post, removeAt: Time, event: Uuid, at: Time, fault: TxFault) returns (r: Result)
      requires event !in db.outbox
      modifies db`rows, db`outbox
      ensures payload.id in old(db.rows) && (fault.Smooth? || fault == WriteFails(true) || fault.QueueFails? || fault.CommitFails?) ==>
        db.rows == old(db.rows)[payload.id := old(db.rows)[payload.id].(deletedAt := Some(StoredTime(removeAt)))]
      ensures payload.id !in old(db.rows) || fault.BeginFails? || fault == WriteFails(false) ==> db.rows == old(db.rows)
      ensures db.outbox == if payload.id in old(db.rows) && (fault.Smooth? || fault == CommitFails(true))
        then old(db.outbox)[event := Event(event, PostDeleted, payload, at, false)] else old(db.outbox)
      ensures r.Ok? <==> fault.Smooth? && payload.id in old(db.rows)
      ensures r.NotFound? <==> (fault.Smooth? || fault.QueueFails? || fault.CommitFails?) && payload.id !in old(db.rows)
      ensures !r.AlreadyExists?
      ensures old(Retractable(payload, at)) ==> Leading(old(db.Now()), db.Now())
    {
      LeadingStay(db.Now());
      ServedLeads(db.Now(), Retract(payload, removeAt));
      ServedLeads(db.Now(), RetractQueued(payload, removeAt, event, at));
      if fault.BeginFails? || fault == WriteFails(false) {
        return Error;
      }
      if payload.id !in db.rows {
        return if fault.WriteFails? then Error else NotFound;
      }
      db.rows := db.rows[payload.id := Deleted(db.rows[payload.id], removeAt)];
      if fault.WriteFails? || fault.QueueFails? {
        return Error;
      }
      var outbox := db.outbox[event := Event(event, PostDeleted, payload, at, false)];
      if fault == CommitFails(false) {
        return Error;
      }
      db.outbox := outbox;
      return if fault.CommitFails? then Error else Ok;
    }

    /** SELECT ... WHERE author_id = author AND deleted_at IS NULL AND (created_at, id) < cursor
        ORDER BY created_at DESC, id DESC LIMIT limit */
    method FindUserPosts(author: Uuid, cursor: Option<Key>, limit: nat) returns (posts: seq<Post>)
      requires RowsOk(db.rows)
      ensures RowKeys(posts) == Page(AuthorKeys(db.rows, author), cursor, limit)
      ensures |posts| <= limit
      ensures forall p | p in posts ::
        && p.id in db.rows && p == db.rows[p.id] && p.author == author && p.deletedAt == None
        && (cursor.Some? ==> p.createdAt < cursor.value.time || (p.createdAt == cursor.value.time && p.id < cursor.value.id))
      ensures forall i, j | 0 <= i < j < |posts| ::
        posts[j].createdAt < posts[i].createdAt || (posts[j].createdAt == posts[i].createdAt && posts[j].id < posts[i].id)
      ensures forall id | id in db.rows && db.rows[id] !in posts && db.rows[id].author == author && db.rows[id].deletedAt == None
        && (cursor.Some? ==> db.rows[id].createdAt < cursor.value.time || (db.rows[id].createdAt == cursor.value.time && id < cursor.value.id)) ::
        |posts| == limit && forall p | p in posts ::
          db.rows[id].createdAt < p.createdAt || (db.rows[id].createdAt == p.createdAt && id < p.id)
    {
      hide Page, Collected, Below;
      ghost var below := Below(AuthorKeys(db.rows, author), cursor);
      var rest := set id | id in db.rows && IsLiveOf(db.rows, author, id) && Under(Key(db.rows[id].createdAt, id), cursor);
      posts := [];
      NoneCollected(db.rows, author, cursor, rest);
      while |posts| < limit && rest != {}
        invariant |posts| <= limit && rest <= db.rows.Keys
        invariant forall id | id in rest :: IsLiveOf(db.rows, author, id)
        invariant forall p | p in posts :: p.id in db.rows && p == db.rows[p.id] && IsLiveOf(db.rows, author, p.id)
        invariant Collected(db.rows, below, rest, posts)
        decreases rest
      {
        var id := NewestRow(rest);
        assert RowOk(db.rows, id);
        CollectNext(db.rows, below, rest, posts, id);
        rest := rest - {id};
        posts := posts + [db.rows[id]];
      }
      CollectedPage(db.rows, author, cursor, limit, rest, posts);
      PageOfRows(db.rows, author, cursor, limit, posts);
    }

    method NewestRow(ids: set<Uuid>) returns (top: Uuid)
      requires ids != {} && ids <= db.rows.Keys
      ensures IsNewestRow(db.rows, ids, top)
    {
      top :| top in ids;
      var rest := ids - {top};
      while rest != {}
        invariant rest <= ids && top in ids && top !in rest
        invariant forall id | id in ids && id !in rest && id != top :: Before(Key(db.rows[id].createdAt, id), Key(db.rows[top].createdAt, top))
        decreases rest
      {
        var id :| id in rest;
        rest := rest - {id};
        if Before(Key(db.rows[top].createdAt, top), Key(db.rows[id].createdAt, id)) {
          top := id;
        }
      }
    }

    /** GetPostsByAuthorId: a page and the cursor of its last post; no cursor for no posts. */
    method GetPostsByAuthorId(author: Uuid, cursor: Option<Cursor>, limit: nat, up: bool)
      returns (ok: bool, posts: seq<Post>, next: Option<Cursor>)
      requires RowsOk(db.rows)
      ensures ok <==> up
      ensures ok ==> RowKeys(posts) == Page(AuthorKeys(db.rows, author), QueryCursor(cursor), limit)
      ensures ok ==> QueryCursor(next) == NextCursor(RowKeys(posts))
      ensures ok ==> next == if |posts| == 0 then None else Some(Cursor(posts[|posts| - 1].id, posts[|posts| - 1].createdAt))
      ensures ok ==> |posts| <= limit
      ensures ok ==> forall p | p in posts ::
        && p.id in db.rows && p == db.rows[p.id] && p.author == author && p.deletedAt == None
        && (cursor.Some? ==>
              p.createdAt < StoredTime(cursor.value.lastTime)
              || (p.createdAt == StoredTime(cursor.value.lastTime) && p.id < cursor.value.lastId))
      ensures ok ==> forall i, j | 0 <= i < j < |posts| ::
        posts[j].createdAt < posts[i].createdAt || (posts[j].createdAt == posts[i].createdAt && posts[j].id < posts[i].id)
      ensures ok ==> forall id | id in db.rows && db.rows[id] !in posts && db.rows[id].author == author && db.rows[id].deletedAt == None
        && (cursor.Some? ==>
              db.rows[id].createdAt < StoredTime(cursor.value.lastTime)
              || (db.rows[id].createdAt == StoredTime(cursor.value.lastTime) && id < cursor.value.lastId)) ::
        |posts| == limit && forall p | p in posts ::
          db.rows[id].createdAt < p.createdAt || (db.rows[id].createdAt == p.createdAt && id < p.id)
    {
      hide Page, AuthorKeys, RowsOk;
      if !up {
        return false, [], None;
      }
      posts := FindUserPosts(author, QueryCursor(cursor), limit);
      if |posts| == 0 {
        return true, [], None;
      }
      var lastPost := posts[|posts| - 1];
      assert lastPost in posts;
      assert StoredTime(lastPost.createdAt) == lastPost.createdAt by { RowTime(db.rows, lastPost.id); }
      return true, posts, Some(Cursor(lastPost.id, lastPost.createdAt));
    }

    /** SELECT ... WHERE id = ANY(ids) AND deleted_at IS NULL, in any order. */
    method GetPostsWithIds(ids: seq<Uuid>, up: bool) returns (r: Option<seq<Post>>)
      requires RowsOk(db.rows)
      ensures r.Some? <==> up
      ensures up ==> IsFound(db.rows, ids, r.value)
      ensures up ==> forall p | p in r.value :: p.id in ids && p.id in db.rows && p == db.rows[p.id] && p.deletedAt == None
      ensures up ==> forall id | id in ids && id in db.rows && db.rows[id].deletedAt == None :: db.rows[id] in r.value
    {
      if !up {
        return None;
      }
      var rest := set id | id in ids && id in db.rows && db.rows[id].Live();
      var posts: seq<Post> := [];
      while rest != {}
        invariant forall p | p in posts :: p.id in ids && p.id in db.rows && p == db.rows[p.id] && p.Live() && p.id !in rest
        invariant forall id | id in ids && id in db.rows && db.rows[id].Live() :: id in rest || db.rows[id] in posts
        invariant forall id | id in rest :: id in ids && id in db.rows && db.rows[id].Live()
        invariant forall i, j | 0 <= i < j < |posts| :: posts[i].id != posts[j].id
        decreases rest
      {
        var id :| id in rest;
        assert RowOk(db.rows, id);
        rest := rest - {id};
        assert forall i | 0 <= i < |posts| :: posts[i] in posts;
        posts := posts + [db.rows[id]];
      }
      return Some(posts);
    }
  }

  predicate RowWritten(fault: TxFault) {
    !fault.BeginFails? && fault != WriteFails(false)
  }

  predicate EventWritten(fault: TxFault) {
    fault.Smooth? || fault == CommitFails(true)
  }

  /** Exactly the live rows asked for, each once. */
  ghost predicate IsFound(rows: Rows, ids: seq<Uuid>, posts: seq<Post>) {
    && (forall p | p in posts :: p.id in ids && p.id in rows && p == rows[p.id] && p.Live())
    && (forall id | id in ids && id in rows && rows[id].Live() :: rows[id] in posts)
    && (forall i, j | 0 <= i < j < |posts| :: posts[i].id != posts[j].id)
  }
}
