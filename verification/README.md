# Feed repository reconciliation, modelled in Dafny

This project models the core of the `FeedRepository` of the SocialMediaFeed iOS app. The
repository keeps a local cache of posts and users and reconciles it with two remote lists,
users and posts. It keeps a locally owned `isLiked` flag on each post across full rebuilds
of the cache, joins posts to their authors when the feed is read, and decides what to hand
its caller: cached data, fresh data or an error.

The persistence framework and the network are gone. What remains is four pure operations
over an abstract cache, `Entities.Store`: users keyed by id, and posts keyed by id, each post
with an optional link to its user and an `isLiked` flag.

- `CacheReplace.Replace` is `saveToCoreData`. It snapshots the like flags, batch-deletes
  posts and then users, and inserts the received users. It then inserts the received posts,
  each linked to its user through the user map and given its old flag, or `false` for a new
  id. The storage failures it can meet are an input (`Faults`): an unreadable snapshot, a
  failed post delete, or a failed user delete. None of them reaches the caller: `try?`
  discards an unreadable snapshot without a word, which leaves every rebuilt post unliked,
  and a failed delete is only printed.
- `CacheRead.Read` is `fetchFeedFromCoreData`. It fetches all posts sorted by id, drops
  the posts without a user, and joins the rest to their user. An absent name, title or body
  reads as "".
- `Likes.ToggleLike` is `toggleLike`. It finds a post through the 32-bit id its request
  matches (`Likes.PredicateId`), flips and saves that post's flag, then builds the
  view of that post. It fails with "Post not found" for an unknown id, and with "User not
  found" for a post without a user, after the flag has already been flipped.
- `FeedLoad.LoadFeed` is `loadFeed`, a function from `forceRefresh`, the cache, the
  outcome of the users fetch, the outcome of the posts fetch and the storage faults. It
  returns the sequence of results handed to the completion handler, the cache afterwards,
  and whether the posts fetch was issued.

Modules: `Wrappers` (Option, Result), `Dto` (the received records), `Entities` (the
cached records and `Valid`, the cache's well-formedness invariant), `Ordering` (ascending
enumeration of ids), `FeedPosts` (the view record and the errors), `CacheRead`,
`CacheReplace`, `Likes` and `FeedLoad`.

## Behaviour worth knowing

- The replace is not atomic. The batch deletes at FeedRepository.swift:133-134 act on the
  store before the save at :157, and a failure is only printed at :159.
  `CacheReplace.ReplaceNotAtomic` shows a cache that shows posts, whose rebuild would show
  posts too, read as empty after a failed user delete.
- Replace failures never reach the caller. After `saveToCoreData` at :69 the load reads the
  cache and emits `.success` at :70-71 whatever happened inside it
  (`FeedLoad.LoadFeedDeleteFailures`). An unreadable like snapshot is dropped by `try?` at
  :120, and every post then comes back unliked.
- A toggle flips and saves the flag at :85-86 before it checks for a user at :88, so a post
  without a user is flipped and the call still fails with "User not found" at :99-101.
- The posts fetch is issued only from the users-success branch at :58: a failed users fetch
  means the posts fetch never happens.
- The toggle's request at :81 uses the format `"id == %d"` with a 64-bit `Int`. `%d` reads a
  32-bit `int`, so only the low 32 bits of the id are matched. An id outside the 32-bit
  range finds the post whose id is its truncation, or none (`Likes.PredicateId`,
  `Likes.ToggleWideIdHitsOtherPost`).

## Model

| member | source | states |
|---|---|---|
| `CacheReplace.ReplaceKeepsLikes` | SocialMediaFeed/Services/FeedRepository.swift:118-152 | after any replace, a post whose id was cached before has its old flag when the snapshot was readable, a new id is unliked, and an unreadable snapshot leaves every rebuilt post unliked |
| `CacheReplace.ReplaceLinks` | SocialMediaFeed/Services/FeedRepository.swift:136-155 | after any replace whose deletes succeed, readable snapshot or not, the users are exactly the received ids, the last duplicate winning; the posts are exactly the received ids with id, userId, title and body copied; a post is linked iff some received user has its userId, and then to the stored user with that id |
| `CacheReplace.ReplaceNotAtomic` | SocialMediaFeed/Services/FeedRepository.swift:132-157 | whenever the cache shows a post and a rebuild without failures would show one, a failed user delete leaves a cache that shows nothing: neither the old contents nor the new ones are kept |
| `CacheReplace.ReplaceValid` | SocialMediaFeed/Services/FeedRepository.swift:136-155 | every replace, whatever fails, keeps records under their own ids and linked users equal to the stored users |
| `CacheReplace.LastByKeyKeys` | SocialMediaFeed/Services/FeedRepository.swift:136-142 | inserting records one by one into an id-keyed dictionary yields exactly the ids of the records |
| `CacheReplace.LastByKeyLast` | SocialMediaFeed/Services/FeedRepository.swift:136-142 | under each id, such a dictionary holds the last record inserted with that id |
| `CacheReplace.LastByKeyOwnKey` | SocialMediaFeed/Services/FeedRepository.swift:141 | the record such a dictionary holds under an id carries that id |
| `CacheRead.ViewOf` | SocialMediaFeed/Services/FeedRepository.swift:172-180 | a post yields a view iff it has a user, and the view keeps the post's id |
| `CacheRead.CompactMapContents` | SocialMediaFeed/Services/FeedRepository.swift:171-181 | a view is in the compacted list iff some input post yields it |
| `CacheRead.CompactMapOrder` | SocialMediaFeed/Services/FeedRepository.swift:171-181 | compacting keeps input order: ids increasing in the input stay increasing in the output |
| `CacheRead.SortedPostsContents` | SocialMediaFeed/Services/FeedRepository.swift:166-170 | the sorted fetch returns every cached post and only cached posts; in a well-formed cache their ids strictly increase, so each post appears once |
| `CacheRead.ReadContents` | SocialMediaFeed/Services/FeedRepository.swift:171-180 | the read holds exactly the cached posts that have a user, each joined to it, with a nil name, title or body read as "" |
| `CacheRead.ReadSorted` | SocialMediaFeed/Services/FeedRepository.swift:167 | the read is sorted by id, strictly ascending |
| `CacheRead.ReadLength` | SocialMediaFeed/Services/FeedRepository.swift:171-181 | the read has exactly as many items as there are posts with a user; orphans are dropped, not reported |
| `CacheRead.ReadEmpty` | SocialMediaFeed/Services/FeedRepository.swift:171-181 | the read is empty iff no cached post has a user |
| `Ordering.SortedKeysOrdered` | SocialMediaFeed/Services/FeedRepository.swift:167 | the ids come out strictly ascending, each cached id exactly once |
| `Likes.PredicateId` | SocialMediaFeed/Services/FeedRepository.swift:81 | the id the toggle's request matches is a signed 32-bit value congruent to the given id modulo 2^32, and equals it when the id fits in 32 bits |
| `Likes.ToggleWideIdHitsOtherPost` | SocialMediaFeed/Services/FeedRepository.swift:81-86 | toggling id 2^32 flips the flag of post 0 and leaves post 2^32 unchanged |
| `Likes.ToggleLike` | SocialMediaFeed/Services/FeedRepository.swift:78-111 | the post is looked up under the truncated id; when none is stored there the call fails with PostNotFound and leaves the cache unchanged; otherwise only that post's flag flips and is kept; the call then succeeds with the post's view carrying the new flag and the user's name when it has a user, and fails with UserNotFound when it has none |
| `Likes.ToggleTwice` | SocialMediaFeed/Services/FeedRepository.swift:84-86 | toggling the same id twice gives back the original cache, whatever either call reported |
| `Likes.ToggleAgreesWithRead` | SocialMediaFeed/Services/FeedRepository.swift:88-97 | the post a successful toggle reports is in the next read of the cache |
| `Likes.ToggleValid` | SocialMediaFeed/Services/FeedRepository.swift:84-86 | a toggle keeps the cache well formed |
| `FeedLoad.LoadFeed` | SocialMediaFeed/Services/FeedRepository.swift:36-76 | a load emits one or two results and issues the posts fetch iff the users fetch succeeded; after a failed fetch the cache is untouched and no empty success is emitted; when both fetches succeed the cache becomes the replace's result, the last emission is its read, and every emission is a success even when the replace met a storage failure, whose error is only logged |
| `FeedLoad.LoadFeedProvisional` | SocialMediaFeed/Services/FeedRepository.swift:39-44 | without a forced refresh and with a cache that shows a post, the first of two emissions is the cached feed, before any network outcome; otherwise exactly one result is emitted |
| `FeedLoad.LoadFeedUsersFailureSkipsPosts` | SocialMediaFeed/Services/FeedRepository.swift:46-58 | after a failed users fetch the posts fetch is not issued, and neither the posts outcome nor the storage faults affect anything |
| `FeedLoad.LoadFeedFallback` | SocialMediaFeed/Services/FeedRepository.swift:49-66 | when either fetch fails the cache is untouched; the load ends with the cached feed if the cache shows a post, and otherwise emits only that fetch's error |
| `FeedLoad.LoadFeedDeleteFailures` | SocialMediaFeed/Services/FeedRepository.swift:68-71 | when both fetches succeed but a delete fails, the load still ends in success: a failed post delete leaves the cache as it was and emits its read, a failed user delete empties the feed, and a forced refresh then emits exactly one empty success |
| `FeedLoad.LoadFeedKeepsLikes` | SocialMediaFeed/Services/FeedRepository.swift:68-71 | after a fully successful load, each post finally shown keeps its previous flag if it was cached before and is unliked if it is new |

## Left out

- The network service (HTTP and JSON decoding) is not modelled. Each fetch's outcome is an
  input, a `Result` of the decoded list or an opaque `NetError`.
- Asynchrony and `[weak self]` are not modelled. Callbacks run in sequence, users fetch
  first. If the repository is deallocated before a callback runs, that callback emits
  nothing; the model does not cover this case.
- The final `context.save()` of the replace failing is not modelled. What a later fetch on
  the same context shows then depends on how the framework handles unsaved inserts. The
  modelled faults are an unreadable snapshot and the two batch deletes.
- `toggleLike`'s fetch or save throwing is not modelled. Such errors go to the caller as
  failures.
- `fetchFeedFromCoreData`'s own error path, which logs the error and returns an empty list,
  is not modelled: reads are total.
- Duplicate ids are not modelled beyond the last record per id. For duplicate post ids in
  the received list, the framework would store several rows; the model keeps the last one
  per id. For duplicate user ids, every row is inserted but only the last one is linked, and
  the model keeps only that one. No read can see an unlinked user.
- 64-bit integers are modelled as unbounded. `Int` and `Int64` are both 64 bits on the
  target platforms, so the `Int64(...)` and `Int(...)` conversions at :139-151 and :90-95
  change nothing. The one narrowing, the `%d` of the toggle's request, is modelled by
  `Likes.PredicateId`.
- `UserEntity.posts`, the inverse of the post-to-user relationship, is not modelled. The core
  never reads it.
- Logging with `print` is not modelled.
- `CacheRead.ReadSorted` and `CacheRead.ReadLength` assume `Entities.Valid`: each post is
  stored under its own id, and the sort key of the fetch is that id. Every cache the model
  produces satisfies it (`CacheReplace.ReplaceValid`, `Likes.ToggleValid`), and so does the
  empty cache.
