/** The feed cache: sorted sets in Redis that are written by pipelines and read by reverse
    lexicographic ranges. */
module FeedStore {
  import opened Model
  import opened Lex
  import opened FeedMembers
  import opened Paging
  import opened Outbox

  // ----- ZRANGE key bound - BYLEX REV LIMIT 0 count ----------------------------------------

  predicate BelowBound(m: Bytes, bound: Option<Bytes>) {
    bound.None? || Less(m, bound.value)
  }

  /** The reply to a reverse range: members strictly below the bound, greatest first, at most
      `limit`, leaving out only smaller ones. */
  ghost predicate IsRange(feed: set<Bytes>, bound: Option<Bytes>, limit: nat, out: seq<Bytes>) {
    && (forall i, j | 0 <= i < j < |out| :: Less(out[j], out[i]))
    && (forall m | m in out :: m in feed && BelowBound(m, bound))
    && |out| <= limit
    && (forall m | m in feed && BelowBound(m, bound) && m !in out ::
          |out| == limit && forall x | x in out :: Less(m, x))
  }

  function Members(keys: set<Key>): set<Bytes> {
    set k | k in keys :: Member(k)
  }

  function BoundOf(cursor: Option<Key>): Option<Bytes> {
    match cursor
    case None => None
    case Some(k) => Some(Member(k))
  }

  ghost predicate AllInRange(keys: set<Key>, cursor: Option<Key>) {
    (forall k | k in keys :: InRange(k)) && (cursor.Some? ==> InRange(cursor.value))
  }

  predicate Encodes(q: seq<Key>, out: seq<Bytes>) {
    |q| == |out| && forall i | 0 <= i < |q| :: out[i] == Member(q[i])
  }

  lemma {:induction false} KeysOf(keys: set<Key>, out: seq<Bytes>) returns (q: seq<Key>)
    requires forall m | m in out :: m in Members(keys)
    ensures Encodes(q, out) && forall k | k in q :: k in keys
    decreases |out|
  {
    if |out| == 0 {
      q := [];
    } else {
      q := KeysOf(keys, out[1..]);
      assert out[0] in out;
      var k :| k in keys && Member(k) == out[0];
      EncodesCons(k, q, out);
      q := [k] + q;
    }
  }

  lemma EncodesCons(k: Key, q: seq<Key>, out: seq<Bytes>)
    requires |out| > 0 && Encodes(q, out[1..]) && out[0] == Member(k)
    ensures Encodes([k] + q, out)
  {
    forall i | 0 <= i < |out| ensures out[i] == Member(([k] + q)[i]) {
      if i > 0 { assert out[1..][i - 1] == Member(q[i - 1]); }
    }
  }

  /** The range over the members of a set of posts is their page in (milliseconds, id) order. */
  lemma RangeIsPage(keys: set<Key>, cursor: Option<Key>, limit: nat, out: seq<Bytes>)
    requires AllInRange(keys, cursor)
    requires IsRange(Members(keys), BoundOf(cursor), limit, out)
    ensures Encodes(Page(keys, cursor, limit), out)
  {
    var q := KeysOf(keys, out);
    KeysArePage(keys, cursor, limit, out, q);
    PageUnique(keys, cursor, limit, q);
  }

  lemma BoundUnder(k: Key, cursor: Option<Key>)
    requires InRange(k) && (cursor.Some? ==> InRange(cursor.value))
    ensures BelowBound(Member(k), BoundOf(cursor)) <==> Under(k, cursor)
  {
    if cursor.Some? { OrderEmbedding(k, cursor.value); }
  }

  lemma KeysArePage(keys: set<Key>, cursor: Option<Key>, limit: nat, out: seq<Bytes>, q: seq<Key>)
    requires AllInRange(keys, cursor)
    requires IsRange(Members(keys), BoundOf(cursor), limit, out)
    requires Encodes(q, out) && forall k | k in q :: k in keys
    ensures IsPage(keys, cursor, limit, q)
  {
    forall i, j | 0 <= i < j < |q| ensures Before(q[j], q[i]) {
      OrderEmbedding(q[j], q[i]);
    }
    forall k | k in q ensures k in Below(keys, cursor) {
      var i :| 0 <= i < |q| && q[i] == k;
      assert out[i] in out;
      BoundUnder(k, cursor);
    }
    forall k | k in Below(keys, cursor) && k !in q
      ensures |q| == limit && forall j | j in q :: Before(k, j)
    {
      LeftOut(keys, cursor, limit, out, q, k);
    }
  }

  lemma LeftOut(keys: set<Key>, cursor: Option<Key>, limit: nat, out: seq<Bytes>, q: seq<Key>, k: Key)
    requires AllInRange(keys, cursor)
    requires IsRange(Members(keys), BoundOf(cursor), limit, out)
    requires Encodes(q, out) && forall k | k in q :: k in keys
    requires k in Below(keys, cursor) && k !in q
    ensures |q| == limit && forall j | j in q :: Before(k, j)
  {
    var m := Member(k);
    BoundUnder(k, cursor);
    assert m in Members(keys);
    forall i | 0 <= i < |out| ensures out[i] != m {
      if out[i] == m { MemberInjective(q[i], k); }
    }
    forall j | j in q ensures Before(k, j) {
      var i :| 0 <= i < |q| && q[i] == j;
      assert out[i] in out;
      OrderEmbedding(k, j);
    }
  }

  // ----- Parsing the members back ----------------------------------------------------------

  /** Ids of the members that parse; the others are skipped. */
  function ParsedIds(members: seq<Bytes>): seq<Uuid> {
    if |members| == 0 then []
    else
      var front := ParsedIds(members[..|members| - 1]);
      match IdOf(members[|members| - 1])
      case None => front
      case Some(id) => front + [id]
  }

  function KeyIds(q: seq<Key>): seq<Uuid> {
    seq(|q|, i requires 0 <= i < |q| => q[i].id)
  }

  /** No member written by the feed cache is skipped. */
  lemma ParsedMembers(members: seq<Bytes>, q: seq<Key>)
    requires Encodes(q, members)
    ensures ParsedIds(members) == KeyIds(q)
  {
    forall i | 0 <= i < |q| ensures IdOf(members[i]) == Some(q[i].id) {
      MemberRoundTrip(q[i]);
    }
    ParsedAll(members, KeyIds(q));
  }

  lemma {:induction false} ParsedAll(members: seq<Bytes>, ids: seq<Uuid>)
    requires |members| == |ids| && forall i | 0 <= i < |ids| :: IdOf(members[i]) == Some(ids[i])
    ensures ParsedIds(members) == ids
    decreases |ids|
  {
    hide IdOf;
    var n := |ids| - 1;
    if n >= 0 {
      ParsedAll(members[..n], ids[..n]);
      assert ids == ids[..n] + [ids[n]];
    }
  }

  /** Reading a feed gives the ids of the page, newest first. */
  lemma FeedPage(keys: set<Key>, cursor: Option<Key>, limit: nat, out: seq<Bytes>)
    requires AllInRange(keys, cursor)
    requires IsRange(Members(keys), BoundOf(cursor), limit, out)
    ensures ParsedIds(out) == KeyIds(Page(keys, cursor, limit))
  {
    RangeIsPage(keys, cursor, limit, out);
    ParsedMembers(out, Page(keys, cursor, limit));
  }

  // ----- The cache -------------------------------------------------------------------------

  /** Pipelined commands either all run, or the pipeline fails having run some of them. */
  datatype Pipeline = Delivered | Broken(reached: set<Uuid>)

  function Reached(subs: seq<Uuid>, pipeline: Pipeline): set<Uuid> {
    set u | u in subs && (pipeline.Delivered? || u in pipeline.reached)
  }

  datatype Cursor = Cursor(lastId: Uuid, lastTime: Time)

  function CursorKey(cursor: Option<Cursor>): Option<Key> {
    match cursor
    case None => None
    case Some(c) => Some(PostKey(c.lastTime, c.lastId))
  }

  /** One more command of a pipeline. */
  lemma FanOutNext(feeds: Feeds, users: set<Uuid>, event: Event, user: Uuid)
    ensures FanOut(FanOut(feeds, users, event), {user}, event) == FanOut(feeds, users + {user}, event)
  {
    var f, g := FanOut(FanOut(feeds, users, event), {user}, event), FanOut(feeds, users + {user}, event);
    forall u: Uuid ensures FeedOf(f, u) == FeedOf(g, u) {
    }
    SameFeeds(f, g);
  }

  lemma FanOutNone(feeds: Feeds, event: Event)
    requires Canonical(feeds)
    ensures FanOut(feeds, {}, event) == feeds
  {
    SameFeeds(FanOut(feeds, {}, event), feeds);
  }

  class FeedCacher {
    var feeds: Feeds

    constructor ()
      ensures feeds == map[]
    {
      feeds := map[];
    }

    /** ZADD or ZREM of one member. */
    method Apply(user: Uuid, event: Event)
      requires Canonical(feeds)
      modifies this
      ensures feeds == FanOut(old(feeds), {user}, event)
    {
      var feed := Touch(FeedOf(feeds, user), event.kind, MemberOf(event.post));
      feeds := if feed == {} then feeds - {user} else feeds[user := feed];
      SameFeeds(feeds, FanOut(old(feeds), {user}, event));
    }

    /** PushToFeeds for an added post, RemoveFromFeeds for a deleted one: the two differ in the
        command alone. */
    method Send(event: Event, subs: seq<Uuid>, pipeline: Pipeline) returns (ok: bool)
      requires Canonical(feeds)
      modifies this
      ensures ok <==> pipeline.Delivered?
      ensures feeds == FanOut(old(feeds), Reached(subs, pipeline), event)
      ensures forall u: Uuid ::
        FeedOf(feeds, u) == (
          if u !in subs || !(pipeline.Delivered? || u in pipeline.reached) then FeedOf(old(feeds), u)
          else if event.kind == PostAdded then FeedOf(old(feeds), u) + {FeedMember(event.post.createdAt, event.post.id)}
          else FeedOf(old(feeds), u) - {FeedMember(event.post.createdAt, event.post.id)})
    {
      hide FanOut;
      FanOutNone(feeds, event);
      assert Reached(subs[..0], pipeline) == {};
      for i := 0 to |subs|
        invariant feeds == FanOut(old(feeds), Reached(subs[..i], pipeline), event)
      {
        var here := pipeline.Delivered? || subs[i] in pipeline.reached;
        assert Reached(subs[..i + 1], pipeline) == if here then Reached(subs[..i], pipeline) + {subs[i]} else Reached(subs[..i], pipeline);
        if here {
          FanOutNext(old(feeds), Reached(subs[..i], pipeline), event, subs[i]);
          Apply(subs[i], event);
        }
      }
      assert subs[..|subs|] == subs;
      return pipeline.Delivered?;
    }

    method ZRange(user: Uuid, bound: Option<Bytes>, limit: nat) returns (out: seq<Bytes>)
      ensures IsRange(FeedOf(feeds, user), bound, limit, out)
    {
      var rest := set m | m in FeedOf(feeds, user) && BelowBound(m, bound);
      out := [];
      while |out| < limit && rest != {}
        invariant |out| <= limit
        invariant forall m | m in out :: m in FeedOf(feeds, user) && BelowBound(m, bound)
        invariant forall m :: m in rest <==> m in FeedOf(feeds, user) && BelowBound(m, bound) && m !in out
        invariant forall m, x | m in rest && x in out :: Less(m, x)
        invariant forall i, j | 0 <= i < j < |out| :: Less(out[j], out[i])
        decreases rest
      {
        ghost var greatest := GreatestExists(rest);
        var top :| top in rest && forall m | m in rest && m != top :: Less(m, top);
        rest := rest - {top};
        out := out + [top];
      }
    }

    /** GetFeedPostsIds; None is an error reply. */
    method GetFeedPostsIds(user: Uuid, cursor: Option<Cursor>, limit: nat, up: bool) returns (r: Option<seq<Uuid>>)
      ensures r.Some? <==> up
      ensures up ==> exists out :: IsRange(FeedOf(feeds, user), BoundOf(CursorKey(cursor)), limit, out) && r.value == ParsedIds(out)
    {
      if !up {
        return None;
      }
      var members := ZRange(user, BoundOf(CursorKey(cursor)), limit);
      var postIds := [];
      for i := 0 to |members|
        invariant postIds == ParsedIds(members[..i])
      {
        assert members[..i + 1][..i] == members[..i];
        match IdOf(members[i]) {
          case None =>
          case Some(id) => postIds := postIds + [id];
        }
      }
      assert members[..|members|] == members;
      return Some(postIds);
    }
  }
}
