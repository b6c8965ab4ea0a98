# Verified model of blog-go

A Dafny model of the parts of blog-go whose correctness is not visible in any one function: the
transactional outbox that fans posts out to follower feeds, the encoding and paging of feeds, the
two caches in front of Postgres, refresh-token rotation, the worker pool and the backoff.
`dafny verify dfyconfig.toml` checks everything.

Objects that the code updates in place are classes with the code's fields and methods. Where calls
interleave, or stop half-way, a component is also a system of atomic steps, and the methods are
proved to take only steps of that system. Failures are parameters: each statement or command that
can fail has an outcome, and each one that writes also "carried out although an error was reported".

| file | models |
|---|---|
| Model, Lex, Counting | shared entities, byte-wise order, batch counts |
| FeedMembers | the feed member string, its order and its parser |
| Paging | pages strictly below a cursor, walks over author pages and feed pages |
| Outbox, Settled | the outbox protocol as interleaved steps, what feeds hold in every reachable state |
| Replay, FanIn, Drain, Eventual | redelivery, fan-out against fan-in, draining, eventual consistency |
| Store, FeedStore | the Postgres tables and queries, the feed sorted sets |
| Processor, Backoff | the outbox consumer and its backoff |
| PostRepository, PostCache, FeedService | producers, author pages, the post cache, reading a feed |
| FollowerCache | the cached follower sets |
| Tokens | refresh tokens |
| WorkPool | the worker pool |

## What holds and what does not

Eight promises hold only under a condition. The condition is proved exact in each case.

- **Deletions reach feeds.** `RemovePost` updates the row outside the transaction that queues the
  deleted event (internal/repositories/postRepository.go:86), so a failure after that statement
  leaves a soft-deleted row with no event (`DeletionLost`). A drained feed equals the merge of the
  followed authors' live posts if and only if every soft delete of a followed post queued its event
  (`FanOutIsFanIn`), and an undisturbed consumer gets there in exactly ceil(n / limit) cycles
  (`EventuallyConsistent`).
- **The post cache agrees with the table.** The same failure, or a failed cache command in
  `RemovePostById`, leaves a live cache entry for a deleted row. A call keeps agreement if and only
  if it is not such a torn delete of a cached post (`StepCoherent`), and a deleted post is returned
  if and only if such an entry is hit (`DeletedPostRead`). Failed cache writes of the other calls do
  no harm.
- **The follower cache agrees with the table.** It misses a change if and only if the author's set is
  cached and either the table statement was carried out without being acknowledged, or the check or
  the write of the cache failed (`StepAgrees`). Working cache commands are not enough: a request that
  is cancelled after its row was written returns before the cache is told
  (internal/repositories/userCacheWrapper.go:51-54 and 100-104; `UnackedInsertMissed`,
  `UnackedDeleteMissed`).
- **Walking a feed returns every live post.** The next cursor comes from the returned posts
  (internal/services/feedService.go:57-62), so a whole page of deleted posts ends the walk. The walk
  is complete if and only if no `limit` consecutive members are deleted above a live one
  (`FeedWalkCoverage`, `ReadsCover`; `BlindWalk` is a walk that is not). Once the outbox is drained
  with every deletion queued there are no deleted members, and reading returns exactly the live posts
  of the followed authors (`ReadsFollowed`). While the feed changes, what stays is still returned if
  the walk stops on a page with room left (`FeedWalkUnderChange`).
- **Walking a feed returns nothing twice.** `GetPostsWithIds` puts cache hits before database misses,
  so the last post of a page need not be its oldest, and then what is older comes back with the next
  page (`RepeatingWalk`). Nothing is repeated if and only if every page ends with its oldest post
  (`FeedWalkNoRepeats`, `ReadsRepeat`), that is, if and only if at each read nothing live was missed by
  the cache or the table's last row was the page's oldest live post (`CachedReadsRepeat`).
- **Posts come in request order.** `GetPostsWithIds` builds the ordered posts and returns the
  unordered ones (internal/repositories/postCacheWrapper.go:127-134). They are in order if and only if
  the table gave the missed posts in request order and no miss was asked for before a hit
  (`ReturnedInOrder`); `MissBeforeHit` is an input for which they are not.
- **Feed members sort by time.** Thirteen digits are enough up to 10^13 milliseconds, the year 2286,
  and not one millisecond longer (`OrderLimit`).
- **The backoff is capped.** The delay is `min(coefficient * base^(n-1), maxDelay)` for all n >= 1 if
  and only if the first product to reach the cap does not wrap below it and `coefficient <= maxDelay`
  (`ClosedForm`): the first delay is not capped (`FirstDelayUncapped`), and a product that wraps
  escapes the cap (`UnboundedCapWraps`). Without the first delay the wrapping alone decides
  (`NoWrapForm`); then delays never shrink if and only if `coefficient <= maxDelay` (`DelayGrows`). The
  processor's own parameters meet both conditions.

Also of note: `UnsubscribeUserFrom` reports "not found" for a failed statement
(internal/repositories/userRepository.go:137), and a pool created without workers never handles what
it accepts (`CloseCompletes`).

## Assumptions

- A post's deleting transaction begins strictly later, on the database clock, than its adding
  transaction did: it reads the committed row first.
- The outbox has one consumer, as wired in internal/routes/routes.go:70-76, and it reads followers
  from the table, not from the follower cache.
- `RemovePost` and `RotateJWT` are each one block in their methods. What others do between their two
  statements is covered by the step systems, where they are `Retract` and later `RetractQueued`, and
  `Delete` and later `Insert`, with any steps between.
- timestamptz keeps whole microseconds; creation times are rounded down to them.
- Page and batch limits are between 1 and 2^31 - 1; lemmas that need `limit >= 1` say so.

## Model

| member | source | states |
|---|---|---|
| FeedMembers.OrderEmbedding | internal/cache/feedCacher.go:30-32 | members sort byte by byte exactly as (milliseconds, id) pairs, for all milliseconds in 0 .. 10^13 - 1 |
| FeedMembers.OrderLimit | internal/cache/feedCacher.go:30-32 | the order is right for all times below a bound if and only if the bound is at most 10^13 |
| FeedMembers.OutgrownOrder | internal/cache/feedCacher.go:30-32 | the first millisecond beyond the bound sorts before the last one within it |
| FeedMembers.NewerSortsLater | internal/cache/feedCacher.go:30-32 | a post created a millisecond or more after another sorts after it, whatever their ids, for nanosecond times below 10^19 |
| FeedMembers.TiesSortById | internal/cache/feedCacher.go:30-32 | posts of the same creation time sort by id |
| FeedMembers.MemberText | internal/cache/feedCacher.go:31 | a member is thirteen decimal digits, a colon and a lower-case dashed UUID |
| FeedMembers.UuidTextOrder | internal/cache/feedCacher.go:31 | the dashed lower-case text of UUIDs sorts as the 128-bit numbers do, and is injective |
| FeedMembers.MemberRoundTrip | internal/cache/feedCacher.go:87-95 | cutting a member at the first colon and parsing gives back its id, for every time, negative ones included |
| FeedMembers.MemberInjective | internal/cache/feedCacher.go:30-32 | two keys with the same member are equal, for every time |
| FeedMembers.OneMemberPerPost | internal/cache/feedCacher.go:30-32 | nanosecond and stored microsecond creation times of a post give the same member |
| FeedMembers.DigitsOrder | internal/cache/feedCacher.go:31 | zero-padded numerals of equal width sort as their numbers |
| FeedMembers.ParseOfText | internal/cache/feedCacher.go:90 | parsing the text of a UUID gives the UUID |
| FeedStore.RangeIsPage | internal/cache/feedCacher.go:69-85 | any reply to the exclusive reverse range lists the members of the newest `limit` posts strictly below the cursor, newest first |
| FeedStore.FeedPage | internal/cache/feedCacher.go:66-98 | the ids parsed out of that reply are exactly the page's ids in order |
| FeedStore.ParsedMembers | internal/cache/feedCacher.go:87-95 | no member written by the feed cache is skipped by the parser |
| FeedStore.FeedCacher.Apply | internal/cache/feedCacher.go:38-44 | one ZADD or ZREM changes one user's set and drops it when it becomes empty |
| FeedStore.FeedCacher.Send | internal/cache/feedCacher.go:34-64 | a pipeline changes exactly the feeds it reached; success means all of them |
| FeedStore.FeedCacher.ZRange | internal/cache/feedCacher.go:69-85 | the greatest members strictly below the bound, descending, at most `limit`, leaving out only smaller ones |
| FeedStore.FeedCacher.GetFeedPostsIds | internal/cache/feedCacher.go:66-98 | the parsed ids of such a reply, or the error |
| FeedReading.PageByCreation | internal/cache/feedCacher.go:66-98 | in any reachable state a page has at most `limit` distinct ids of posts in the feed, below the cursor and newest first, and leaves out only posts older than a full page, all by the rows' creation times to the millisecond |
| Paging.PageIsPage | internal/database/post.sql.go:246-253 | taking the head of the sorted list below the cursor meets what an ordered, bounded, limited query promises |
| Paging.PageUnique | internal/database/post.sql.go:246-253 | nothing else meets it |
| Paging.DescSorted | internal/database/post.sql.go:250-251 | the newest-first list is strictly descending, complete and without repetition |
| Paging.DescUnique | internal/database/post.sql.go:250-251 | it is the only strictly descending list of its keys |
| Paging.AuthorWalkUnderChange | internal/repositories/postRepository.go:249-305 | with any inserts and soft deletes between pages the walk is strictly descending, so nothing repeats, and every post that stays live is returned |
| Paging.AuthorWalkLive | internal/repositories/postRepository.go:249-305 | a returned post was live when its page was read |
| Paging.AuthorWalkStill | internal/repositories/postRepository.go:249-305 | with no changes the walk is the author's sorted live posts, takes ceil(n / limit) + 1 calls and ends with a nil cursor |
| Paging.FeedWalkEnds | internal/services/feedService.go:32-63 | a feed walk never takes more calls than the feed has members plus one |
| Paging.FeedWalkCoverage | internal/services/feedService.go:32-63 | whatever order the post layer gives each page, the walk returns every live post if and only if no `limit` consecutive members are deleted above a live one |
| Paging.BlindWalk | internal/services/feedService.go:57-62 | one deleted post on a page of one ends the walk above a live one |
| Paging.FeedWalkUnderChange | internal/services/feedService.go:32-63 | with any pushes, removals and deletes between the pages and pages in any order, a walk that stops on a page with room left returns every post that stays in the feed and live |
| Paging.FeedWalkNoRepeats | internal/services/feedService.go:32-63 | a whole walk returns nothing twice if and only if no page repeats a post and every page ends with its oldest one |
| Paging.RepeatingWalk | internal/services/feedService.go:57-62 | two live posts returned oldest first on one page: the older one is returned again |
| Paging.FeedWalkInOrder | internal/services/feedService.go:32-63 | a whole walk is strictly descending, and so without repetition, if and only if every page is |
| Counting.CallsCount | internal/repositories/postRepository.go:285-287 | reading `limit` at a time until nothing is left takes ceil(n / limit) + 1 calls |
| Outbox.StepKeeps | internal/processors/postEventsProcessor.go:83-134 | every step of producers, followers and consumer, failures included, keeps the protocol's invariant |
| Outbox.StepEffects | internal/processors/postEventsProcessor.go:83-134 | which rows, events, subscriptions, feeds and marks each step changes, and that it changes no others |
| Outbox.AddKeepsProduced | internal/repositories/postRepository.go:116-153 | adding a post keeps rows and events matched |
| Outbox.DeleteKeepsProduced | internal/database/post.sql.go:71-75 | a soft delete keeps rows and events matched, with or without its event |
| Outbox.QueueKeepsProduced | internal/repositories/postRepository.go:99-105 | queueing a deleted event for a soft-deleted row keeps them matched and ordered |
| Outbox.FetchInOrder | internal/database/outbox.sql.go:32-37 | in any batch a pending added event comes before every deleted event of its post |
| Outbox.MarkInOrder | internal/database/outbox.sql.go:65-69 | marking a fetched batch never leaves a marked deletion with a pending addition |
| Outbox.SameFeeds | internal/cache/feedCacher.go:34-64 | feeds are determined by their members, as empty sets are not kept |
| Outbox.FanOut | internal/cache/feedCacher.go:34-64 | exactly the given users' feeds gain or lose exactly the event's member |
| Settled.SettledFeeds | internal/processors/postEventsProcessor.go:83-134 | in every reachable state, for a post with no pending event, a user who followed throughout has it in the feed if and only if no deleted event was ever queued for it |
| Settled.NeverInFeed | internal/processors/postEventsProcessor.go:83-134 | a user who never follows the author never has the post in the feed |
| Settled.StepTracks | internal/processors/postEventsProcessor.go:83-101 | each step keeps: a fanned-out deletion keeps the member out, and without deletions a fanned-out addition keeps it in |
| Settled.NoDeletionYet | internal/database/outbox.sql.go:32-37 | when an added event's turn comes no deletion of its post is marked or fanned out, also when the batch is being replayed |
| Settled.EventMember | internal/processors/postEventsProcessor.go:53-81 | an event touches the member of its own row and of no other row |
| Settled.Reachable | internal/processors/postEventsProcessor.go:103-124 | invariant and soundness (feeds hold only members of stored posts) in every reachable state |
| Settled.RowsMatchEvents | internal/repositories/postRepository.go:83-153 | a row exists if and only if exactly one added event for it exists; a deleted event implies a soft-deleted row |
| Settled.DeletionLost | internal/repositories/postRepository.go:86-105 | for any post there is a run that soft-deletes it and never queues a deleted event |
| Replay.ReplayAbsorbed | internal/processors/postEventsProcessor.go:83-124 | whatever failed attempts got through, in any order and to any followers, one complete pass ends in the feeds of a single pass |
| Replay.PassDecides | internal/processors/postEventsProcessor.go:83-101 | after a pass, membership is decided by the last event of the batch for that member, else unchanged |
| Replay.AttemptIsAttempted | internal/processors/postEventsProcessor.go:83-101 | a prefix of the batch and a partial last fan-out is such an attempt |
| Replay.PassesJoin | internal/processors/postEventsProcessor.go:83-101 | passes over two batches are one pass over both |
| FanIn.FanOutIsFanIn | internal/processors/postEventsProcessor.go:103-124 | with fixed followers and a drained outbox a feed is the merge of the followed authors' live posts if and only if every soft delete of them queued its event |
| FanIn.DrainedFeed | internal/processors/postEventsProcessor.go:103-124 | then a feed has a post if and only if the user follows its author and no deleted event exists |
| FanIn.FeedPageIsMergePage | internal/cache/feedCacher.go:66-98 | then a page read from the feed is the page of that merge |
| Eventual.EventuallyConsistent | internal/processors/postEventsProcessor.go:103-134 | from any state reached with fixed followers ceil(n / limit) undisturbed cycles are possible, and whatever batches they fetch, they drain the outbox and each feed is then the merge of the followed authors' live posts if and only if every soft delete of them queued its event |
| Drain.DrainBound | internal/processors/postEventsProcessor.go:103-124 | without failures and producers n pending events take exactly ceil(n / limit) cycles, and only then is nothing fetched |
| Drain.DrainExists | internal/processors/postEventsProcessor.go:103-124 | such a run to the end exists from every state |
| Drain.DrainIsOnePass | internal/processors/postEventsProcessor.go:103-134 | each pending event is fanned out exactly once, in creation order, and feeds end as after a single pass over all of them |
| Drain.BatchTakes | internal/database/outbox.sql.go:32-37 | a fetch takes min(pending, limit) distinct pending events |
| Drain.SentInOrder | internal/processors/postEventsProcessor.go:103-124 | after any number of cycles the sent events are the oldest ones and the rest is still pending |
| Store.OldestExists | internal/database/outbox.sql.go:32-37 | pending events have an oldest one |
| Store.Database.GetOutboxEvents | internal/database/outbox.sql.go:39-63 | distinct pending events in creation order, at most `limit`, leaving out only events no older than a full batch |
| Store.Database.SetEventsAsProcessed | internal/database/outbox.sql.go:71-74 | exactly the given events become processed, or none; an error can be reported either way |
| Store.Database.GetSubs | internal/database/user.sql.go:109-132 | exactly the author's followers |
| Store.Database.Serve | internal/repositories/postRepository.go:83-153 | whatever producers and followers commit between two statements of the consumer is a run of the step system, leaves old events as they were and adds only pending ones |
| Store.ServedEffects | internal/database/user.sql.go:134-165 | what an admitted subscription, cancellation, new post or deletion of another client commits |
| Outbox.LeadsKeeps | internal/processors/postEventsProcessor.go:136-163 | whatever the calls of consumer, producers and followers do keeps the protocol's invariant |
| Processor.PostEventsProcessor.SendToFeeds | internal/processors/postEventsProcessor.go:53-81 | success reaches all current followers of the author, a broken pipeline some of them, a failed read none |
| Processor.PostEventsProcessor.SendNext | internal/processors/postEventsProcessor.go:84-98 | one event as steps of the system, with others committing before it and between reading the followers and sending; it fails exactly at its own fault |
| Processor.PostEventsProcessor.ProcessEvents | internal/processors/postEventsProcessor.go:83-101 | a run of the step system that ends after the last event or idle at the first failure, whatever others commit; undisturbed success is a complete pass |
| Processor.PostEventsProcessor.FromEventsToIds | internal/processors/postEventsProcessor.go:126-134 | the ids in order, and as a set the batch's |
| Processor.PostEventsProcessor.ProcessAndMark | internal/processors/postEventsProcessor.go:113-121 | fan-out and marking as a run; success marks exactly the batch, a failure before the marking marks nothing |
| Processor.PostEventsProcessor.FetchAndProcess | internal/processors/postEventsProcessor.go:103-124 | every call is a run of the step system, whatever fails in it and whatever others commit during it; success marks exactly one batch of the oldest pending events; "nothing to fetch" means none is pending |
| Processor.PostEventsProcessor.Turn | internal/processors/postEventsProcessor.go:145-161 | the delay from the failures so far, during which others commit, then one cycle; only a processed batch clears the failures, finding nothing adds one |
| Processor.PostEventsProcessor.Loop | internal/processors/postEventsProcessor.go:136-163 | over any schedule of failures and of what others commit, a run of the step system; no delay at first and after a processed batch, else one second, doubling up to thirty |
| Processor.DelaysOf | internal/processors/postEventsProcessor.go:145-161 | m cycles in a row without a processed batch give min(2^(m-1), 30) seconds |
| Processor.PostEventsProcessor.constructor | internal/processors/postEventsProcessor.go:41-51 | the backoff doubles from one second up to thirty |
| Backoff.ClosedForm | internal/processors/backoff.go:28-43 | the 64-bit loop computes min(coefficient * base^(n-1), maxDelay) for every n >= 1 if and only if the first product to reach the cap does not wrap below it and coefficient is at most maxDelay |
| Backoff.NoWrapForm | internal/processors/backoff.go:28-43 | with the first delay left uncapped, as the code leaves it, that the product does not wrap is alone the exact condition |
| Backoff.FirstDelayUncapped | internal/processors/backoff.go:33 | a coefficient above the cap is returned as it is after one failure |
| Backoff.FitsIsSeen | internal/processors/backoff.go:28-43 | that is so whenever coefficient * base and maxDelay * base stay below 2^63 |
| Backoff.UnboundedCapWraps | internal/processors/backoff.go:34-36 | doubling 2^62 under the largest cap gives a negative delay |
| Backoff.DelayGrows | internal/processors/backoff.go:28-43 | as long as no product wraps, delays never shrink with more failures if and only if coefficient is at most maxDelay |
| Backoff.ExponentialBackOff.NextDelay | internal/processors/backoff.go:28-43 | the wrapping loop's value for any parameters, the closed form for parameters that fit |
| PostRepositories.StaysDeleted | internal/database/post.sql.go:71-75 | in every run deleted_at never returns to null |
| PostRepositories.PostRepository.AddPost | internal/repositories/postRepository.go:116-153 | row and added event are both written or neither, whichever statement fails; a step of the protocol |
| PostRepositories.PostRepository.RemovePost | internal/repositories/postRepository.go:83-114 | for each failing statement exactly which of row and event is written; a step of the protocol for a post re-read from the table |
| PostRepositories.PageOfRows | internal/database/post.sql.go:206-253 | the page of keys is, in terms of rows, the author's rows with a null deleted_at strictly below the cursor, newest first, leaving out only older ones than a full page |
| PostRepositories.PostRepository.FindUserPosts | internal/database/post.sql.go:206-253 | exactly those rows |
| PostRepositories.PostRepository.GetPostsByAuthorId | internal/repositories/postRepository.go:249-305 | those rows for the stored precision of the cursor, and the last row as next cursor, none for an empty page: one call of the author walk |
| PostRepositories.PostRepository.GetPostsWithIds | internal/repositories/postRepository.go:307-336 | exactly the live rows asked for, each once, in some order |
| PostCache.StepCoherent | internal/repositories/postCacheWrapper.go:28-135 | a whole call or any expiry keeps cache and table in agreement if and only if it is not a torn delete |
| PostCache.RunCoherent | internal/repositories/postCacheWrapper.go:28-135 | over all runs without torn deletes, failed cache writes included, every entry has its row's content and is a tombstone exactly when the row is deleted |
| PostCache.StepHalfCoherent | internal/repositories/postCacheWrapper.go:28-135 | content and tombstones stay right whatever fails |
| PostCache.RunHalfCoherent | internal/repositories/postCacheWrapper.go:28-135 | the same over all runs |
| PostCache.ReadIsTable | internal/repositories/postCacheWrapper.go:89-134 | hits followed by misses are, as a set, what the plain repository returns, also when the cache read fails |
| PostCache.DeletedPostRead | internal/repositories/postCacheWrapper.go:89-134 | whatever failed before, a deleted post is returned if and only if a live entry of it is hit |
| PostCache.NoDeletedPostRead | internal/repositories/postCacheWrapper.go:83-135 | over all runs without torn deletes no read returns a soft-deleted post, for any ids |
| PostCache.InOrderIds | internal/repositories/postCacheWrapper.go:121-132 | the reordered posts carry exactly the requested ids that were found, in request order |
| PostCache.InOrderOfAnyArrival | internal/repositories/postCacheWrapper.go:121-132 | whatever the order in which hits and misses arrived |
| PostCache.OrderedUnchanged | internal/repositories/postCacheWrapper.go:121-132 | for distinct ids the reordering loop leaves posts as they are if and only if each was asked for before the ones after it |
| PostCache.ReturnedInOrder | internal/repositories/postCacheWrapper.go:89-134 | for distinct ids the returned posts are in request order if and only if the found misses are and none of them was asked for before a hit |
| PostCache.MissBeforeHit | internal/repositories/postCacheWrapper.go:118-134 | a missed post asked for before a cached one is returned after it |
| PostCache.ReturnedOnce | internal/repositories/postCacheWrapper.go:89-134 | for distinct ids no post is returned twice by one call |
| PostCache.WrittenBack | internal/repositories/postCacheWrapper.go:111-116 | writing back the fetched posts caches exactly the live rows among the misses that the pipeline got to |
| PostCache.PostCacher.RemovePostById | internal/cache/postCacher.go:38-66 | a live entry becomes a tombstone if the commands work; a missing key and an older tombstone are left and reported |
| PostCache.PostCacher.AddPosts | internal/cache/postCacher.go:127-139 | the posts are written one after the other, as far as the pipeline gets |
| PostCache.PostCacher.GetPostsWithIds | internal/cache/postCacher.go:80-125 | live entries as hits and absent ids as misses, tombstones in neither |
| PostCache.PostCacheWrapper.RemovePost | internal/repositories/postCacheWrapper.go:28-54 | rows, deleted event and cache entry after every failure; an error of the cache does not fail the call; a step of the protocol for a post re-read from the table |
| PostCache.PostCacheWrapper.AddPost | internal/repositories/postCacheWrapper.go:56-81 | rows, added event and cache entry after every failure; a step of the protocol |
| PostCache.PostCacheWrapper.OrderPosts | internal/repositories/postCacheWrapper.go:121-132 | exactly the given posts whose ids were asked for, one for each id, in request order |
| PostCache.PostCacheWrapper.GetPostsWithIds | internal/repositories/postCacheWrapper.go:83-135 | for each id the live cached entry if the cache has one, else the live row; each entry after the call; agreement kept; fails if and only if the database is down and something was missed |
| PostCache.PostCacheWrapper.FetchMissed | internal/repositories/postCacheWrapper.go:104-119 | the live rows among the misses, cached as far as the pipeline gets |
| FeedReading.ReadIsReply | internal/services/feedService.go:45-63 | one read of a feed is one step of the feed walk: the page's live posts, and their last post's key as next cursor at any precision |
| FeedReading.ReachableFeed | internal/cache/feedCacher.go:34-98 | in every reachable state of the outbox protocol a feed is exactly the members of stored posts under their rows' creation times |
| FeedReading.ReadsAreWalk | internal/services/feedService.go:45-63 | reads that hand each returned cursor to the next call are a feed walk |
| FeedReading.ReadsCover | internal/services/feedService.go:45-63 | in any reachable state that stays unchanged, reading to the end returns every live post of the feed if and only if there is no blind spot |
| FeedReading.ReadsRepeat | internal/services/feedService.go:45-63 | and returns none twice if and only if every page ends with its oldest post |
| FeedReading.PageEndsOldest | internal/repositories/postCacheWrapper.go:89-134 | a page ends with its oldest post if and only if nothing live was missed or the table's last row is the page's oldest live post |
| FeedReading.CachedReadsRepeat | internal/services/feedService.go:45-63 | whatever the cache held at each read, reading to the end returns no post twice if and only if each read met that condition |
| FeedReading.ReadsFollowed | internal/services/feedService.go:45-63 | with a drained outbox, fixed followers and every deletion queued, reading to the end returns exactly the live posts of the followed authors |
| FeedReading.FeedService.GetFromFeed | internal/services/feedService.go:45-63 | with an agreeing post cache only live posts, exactly those of the page, each once; cursor from the last returned post |
| FollowerCache.StepAgrees | internal/repositories/userCacheWrapper.go:45-221 | a whole call or any eviction keeps every cached set equal to the table's and non-empty if and only if no cached set misses a change |
| FollowerCache.RefillCaches | internal/repositories/userCacheWrapper.go:144-182 | a refill that can read and write leaves an author with followers cached, with exactly them |
| FollowerCache.UnackedInsertMissed | internal/repositories/userCacheWrapper.go:51-54 | an insert that is carried out but reported as an error breaks agreement whenever the author is cached, although every cache command works |
| FollowerCache.UnackedDeleteMissed | internal/repositories/userCacheWrapper.go:100-104 | the same for a delete |
| FollowerCache.RunAgrees | internal/repositories/userCacheWrapper.go:45-221 | agreement over all runs without a missed change, whatever else fails |
| FollowerCache.SubsCacher.SubscribeUserTo | internal/cache/subsCacher.go:48-60 | one follower added to one set, or none; an error can be reported either way |
| FollowerCache.SubsCacher.UnsubscribeUserFrom | internal/cache/subsCacher.go:62-74 | one follower removed, the key dropped with the last one, or none; an error can be reported either way |
| FollowerCache.SubsCacher.GetFollows | internal/cache/subsCacher.go:76-105 | exactly the cached followers, not found for a missing key |
| FollowerCache.SubsCacher.SetFollows | internal/cache/subsCacher.go:107-122 | the followers are added, or not; none is a success that sends no command |
| FollowerCache.UserCacheWrapper.TryToCacheSubs | internal/repositories/userCacheWrapper.go:144-182 | the followers from a cache that was filled meanwhile, else the table's, and the refill for every failure |
| FollowerCache.UserCacheWrapper.SubscribeUserTo | internal/repositories/userCacheWrapper.go:45-92 | the row is in the table unless the statement was refused or names one user twice; the cached set gains the follower, or is filled, if the commands work; success if and only if the insert was acknowledged and the refill, if any, could read |
| FollowerCache.UserCacheWrapper.UnsubscribeUserFrom | internal/repositories/userCacheWrapper.go:94-142 | the row is gone unless the statement was refused; the cached set loses the follower, and its key with the last one; every unacknowledged or empty outcome of the statement is "not found" |
| FollowerCache.UserCacheWrapper.GetSubs | internal/repositories/userCacheWrapper.go:184-221 | the cached followers if a look succeeds, else the table's; the table's in either case if the cache agrees |
| Tokens.StepKeeps | internal/services/authService.go:89-177 | every interleaved delete and insert keeps: each session in exactly one of live, in flight, logged out, failed |
| Tokens.Reachable | internal/services/authService.go:89-177 | so in every reachable state |
| Tokens.ConsumedOnce | internal/repositories/tokenRepository.go:47-55 | no interleaving consumes a refresh token twice, by rotation or logout |
| Tokens.OneHolder | internal/services/authService.go:142-158 | a session has at most one live token or rotation in flight |
| Tokens.EndedForGood | internal/services/authService.go:160-177 | a session that was logged out or lost never has a live token again |
| Tokens.LoginsConserved | internal/services/authService.go:89-177 | logins = live tokens + rotations in flight + logged out + failed |
| Tokens.TokenRepository.AddToken | internal/repositories/tokenRepository.go:28-45 | the row is inserted unless the jti exists; an error can be reported either way |
| Tokens.TokenRepository.TryToDeleteToken | internal/repositories/tokenRepository.go:47-55 | the row is gone, and exactly a row that was there is a success |
| Tokens.TokenRepository.DeleteAllUserTokens | internal/repositories/tokenRepository.go:57-60 | exactly the user's tokens are gone, or none; an error can be reported either way |
| Tokens.AuthService.SignJWT | internal/services/authService.go:89-140 | a login is a run of the step system that gives its session exactly one token |
| Tokens.AuthService.RotateJWT | internal/services/authService.go:142-158 | the session moves to the new token or is failed, for every failing statement; a missing jti is banned |
| Tokens.AuthService.LogoutByRefresh | internal/services/authService.go:160-177 | the presented token is consumed and its session is logged out, not failed |
| WorkPools.Conserved | workpool/workpool.go:24-64 | in every reachable state accepted tasks left the queue in push order, the queue is bounded, and every task with its copies is queued, in one worker's hands or finished |
| WorkPools.CloseCompletes | workpool/workpool.go:61-64 | when Close returns every accepted task was handled if and only if the pool has a worker or accepted nothing |
| WorkPools.CloseTerminates | workpool/workpool.go:61-64 | after closing, whatever the schedule, Close returns after exactly the same number of worker steps |
| WorkPools.ClosedProgress | workpool/workpool.go:36-47 | a closed pool can take a step if and only if Close has not returned |
| WorkPools.ClosedStep | workpool/workpool.go:36-47 | each step of a closed pool uses up one unit of the termination measure |
| WorkPools.StepKeeps | workpool/workpool.go:32-64 | every step keeps the pool's invariant |
| WorkPools.WorkPool.constructor | workpool/workpool.go:24-50 | an empty open queue of the given size and idle workers |
| WorkPools.WorkPool.TryPush | workpool/workpool.go:52-59 | accepts if and only if a worker is parked or the buffer has room; a step of the pool |
| WorkPools.WorkPool.Close | workpool/workpool.go:61-64 | ends, with all workers gone and, given a worker, every accepted task handled |

## Left out

- Attachments and reply_to: rows and JSON fields that follow the post and take part in no decision.
- HTTP handlers, middleware, validation, swagger, configuration, telemetry, migrations: request plumbing.
- The author check before a delete, `GetPostById`, registration and login lookups: one-branch mappings.
- JWT signing and argon2id: foreign calls; signing is a parameter that succeeds or fails, ids are fresh values.
- Cursor base64 and JSON: a cursor is an (id, time) pair.
- `uuid.Parse` of other forms than the 36-character one: the feed cache writes no others.
- The unknown-message-type branch of `processEvents`: the column is an enum of the two modelled types.
- Interleavings inside one cache call, such as a refill that races a write: calls on the caches are whole.
- A pipeline that Redis still executes after it was reported broken and the batch was fetched again.
- singleflight: concurrent refills of one author are one refill.
- Context cancellation while waiting for a refill: a caller that gave up gets an error, the refill goes on.
- The cached `subscriptions` sets: written and never read.
- Errors of foreign keys, such as a subscription to an unknown user.
- Starting and stopping the processor's goroutine: the loop runs over a schedule of any length, which also says what others commit between its statements.
- EXPIRE after JSONSET in one pipeline: any key may expire between calls, a key whose EXPIRE failed just later.
- `DeleteAllUserTokens` is specified on its own; no service calls it, so the rotation system has no such step.
- Pushing to a closed pool and closing twice, on which Go panics.
- WorkPools.WorkPool.Close: goroutines and channels are steps on a value; the handler's effects are not modelled, and handlers are taken to end.
- FeedStore.FeedCacher.Send: `PushToFeeds` and `RemoveFromFeeds` are one method, as they differ in the command alone.
- Backoff.ClosedForm: coefficients and caps outside 1 .. 2^63 - 1 are left out, as are bases below 1; the code is given none.
