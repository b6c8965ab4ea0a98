/** Entities shared by the components. */
module Model {

  datatype Option<+T> = None | Some(value: T)

  const UUID_COUNT := 0x1_0000_0000_0000_0000_0000_0000_0000_0000

  /** A UUID is the 128-bit number its sixteen octets spell in network order
      (section 4 of RFC 9562). */
  type Uuid = n: int | 0 <= n < UUID_COUNT

  /** Times are nanoseconds since the epoch. */
  type Time = int

  datatype Post = Post(id: Uuid, author: Uuid, content: string, createdAt: Time, deletedAt: Option<Time>) {
    predicate Live() { deletedAt.None? }

    /** The row that storing this post leaves behind: whole microseconds only. */
    function Stored(): (row: Post)
      ensures row.id == id && row.author == author && row.content == content
      ensures row.createdAt % 1_000 == 0 && 0 <= createdAt - row.createdAt < 1_000
      ensures row.deletedAt.Some? <==> deletedAt.Some?
    {
      this.(createdAt := StoredTime(createdAt), deletedAt := StoredOption(deletedAt))
    }
  }

  /** What a timestamptz column keeps of a time. */
  function StoredTime(nanos: Time): (r: Time)
    ensures r % 1_000 == 0 && 0 <= nanos - r < 1_000
  {
    nanos / 1_000 * 1_000
  }

  function StoredOption(t: Option<Time>): Option<Time> {
    match t
    case None => None
    case Some(nanos) => Some(StoredTime(nanos))
  }

  /** Go's Time.UnixMilli. */
  function UnixMilli(nanos: Time): (millis: int)
    ensures 0 <= nanos - millis * 1_000_000 < 1_000_000
  {
    nanos / 1_000_000
  }

  /** A position in newest-first order. In a feed the time is in milliseconds, in an author's
      page it is the stored creation time. */
  datatype Key = Key(time: int, id: Uuid)

  predicate Before(a: Key, b: Key) {
    a.time < b.time || (a.time == b.time && a.id < b.id)
  }

  /** A row of subscriber_author. */
  datatype Subscription = Subscription(sub: Uuid, author: Uuid)

  function SubsOf(table: set<Subscription>, author: Uuid): (subs: set<Uuid>)
    ensures forall u: Uuid :: u in subs <==> Subscription(u, author) in table
  {
    set f | f in table && f.author == author :: f.sub
  }

  datatype MessageType = PostAdded | PostDeleted

  /** A row of the outbox; `processed` is processed_at IS NOT NULL. */
  datatype Event = Event(id: Uuid, kind: MessageType, post: Post, createdAt: Time, processed: bool)
}
