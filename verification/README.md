# Verified models of the motorcycle community back end

This project models the parts of the back end that keep redundant state, run a small
concurrent protocol or transform strings, and proves what they keep. `dafny verify
dfyconfig.toml` checks it.

| files | what they model |
|---|---|
| `cache_protocol.dfy`, `cache_service.dfy` | the cache's lock and stale-while-revalidate protocol, as a step system over any number of calls and a clock, and the service whose calls are runs of it |
| `sanitizer.dfy`, `sanitizer_meaning.dfy`, `sanitizer_deletions.dfy`, `sanitizer_tree.dfy`, `ascii.dfy` | the sanitiser of request bodies: strings, and the objects that hold them |
| `view_sync.dfy`, `sums.dfy` | view counting in Redis and its transfer to the database by overlapping runs |
| `presence.dfy`, `presence_commands.dfy`, `presence_reads.dfy`, `typing_commands.dfy` | who is online: handlers one at a time, handlers command by command, batch reads; typing indicators, call by call and command by command |
| `hashtag_text.dfy`, `hashtag_index.dfy` | hashtags of posts: extraction, index, lookup |
| `comments.dfy` | the two-level comment tree and its two counters |
| `auth_tokens.dfy` | refresh tokens and one-time codes |
| `paging.dfy` | cursor paging of messages, feed and comments |
| `stories.dfy`, `sorting.dfy` | grouping and sorting of the story feed |
| `unread_count.dfy` | the cached number of unread notifications |
| `forum.dfy`, `forum_listing.dfy` | forum counters, likes, the cached category list, and deletion by cascade |
| `options.dfy` | the option type |
| `metrics.dfy` | the window of response times, its mean and percentiles, the connection counter |

Most modules have the same build: a state, a function or predicate that says what each
handler or command does to it, runs as sequences of events, invariants proved over all
runs, and a class with the service's fields whose methods are proved to do what the
function says and, on the fields themselves, what the service promises.

## Assumptions

- Each Redis command is atomic. An entry is alive up to and including the millisecond of
  its expiry. Store and database writes succeed unless the property says otherwise.
- `softDelete` hides a row from `find` and `findOne`; `increment` and `decrement` still
  reach it. `undefined` in a `where` clause is no condition.
- Where a module's head comment says "one handler at a time", one service call is one step.
- Passwords, token hashes, signatures, clocks and database identifiers are arguments.
- A sort with a consistent comparator is a stable sort; a query is a filter and a sort
  over the rows.

## What turned out not to hold

For each of these the model keeps the code as it is, exhibits a failing run, and says
exactly when the code does behave.

- Sanitising twice can differ from sanitising once: deleting one scheme may expose another
  (`SanitizerDeletions.SanitizeTwiceExactlyWhen`). An array nested in an array comes out as an object
  (`SanitizerTree.ShapeKept`).
- A lock holder that outlives the lock's 30 seconds breaks mutual exclusion
  (`CacheProtocol.OverlapExactlyWhenOverdue`). A ttl of 0 never expires, and calls on one
  key may pass different times to live, so a stale copy need not outlive the fresh one
  although `staleTtl >= ttl` in every call (`CacheProtocol.BackedExactlyWhenCovering`). A
  stale copy of null backs nothing, since every read takes it for a miss
  (`CacheProtocol.NullSpoilsEveryKey`).
- A first connection is announced to followers even if the user appears offline
  (`Presence.BelievedUnlessExposed`). With handlers interleaved command by command the
  online set can miss a user who has a device
  (`PresenceCommands.OnlineSetRightUnlessOvertaken`).
- A start of typing can be lost when the key's older expiry passes between its HSET and its
  EXPIRE (`TypingCommands.ShownUnlessRanOut`).
- Replies under a deleted comment make `commentsCount` drift, down to -1
  (`Comments.CountIsVisibleExactlyWhen`).
- The text of a shared post is not indexed, so its hashtags find nothing; the bare service
  method also keeps the old hashtags of a text updated to the empty string, which the
  request validation refuses (`HashtagIndex.LookupAgreesExactlyWhen`). A private post can be
  neither edited nor deleted, not even by its owner (`HashtagIndex.OwnerMayExactlyWhen`).
- Comments in OLDEST order never show what lies beyond the first page
  (`Paging.OldestWalkIsCompleteExactlyWhen`).
- A cached unread count can stay wrong after all calls have finished
  (`UnreadCount.RightExactlyWhenUnchangedDuringFill`).
- A reply may name a parent of another thread; deleting that parent's category then takes
  the reply away without counting it down (`Forum.RepliesCountExactlyWhen`).

## Model

| member | source | states |
|---|---|---|
| CacheProtocol.MutualExclusion | src/common/cache/cache.service.ts:86-125 | In every interleaving of any number of calls in which holders release within the lock's 30 seconds: at most one call per key is between acquire and release, a release deletes the releaser's own lock, and no finished call owns one |
| CacheProtocol.ReleaseSparesOthers | src/common/cache/cache.service.ts:316-323 | In such a run the unconditional DEL of a release leaves every other holder its own, still live lock |
| CacheProtocol.OverlapExactlyWhenOverdue | src/common/cache/cache.service.ts:305-314 | In a run that was timely up to its last event: while a call holds a lock, another acquires it if and only if the holder is by now past its 30 seconds |
| CacheProtocol.OverdueHolderBreaksExclusion | src/common/cache/cache.service.ts:305-323 | Runs in which an overdue holder leads to two holders, and in which its release strips the second one of its lock |
| CacheProtocol.CachedValuesAreGenuine | src/common/cache/cache.service.ts:128-192 | In every interleaving, whatever the delays, a value answered from the cache was made by a factory run for that key and is no older than the ttl its writer asked for |
| CacheProtocol.HitIsAnswered | src/common/cache/cache.service.ts:92-157 | In every interleaving, a read of an unanswered call that meets a live value other than null answers the call with that value, whatever happens afterwards; after a fresh hit the call does nothing more |
| CacheProtocol.ReadTakesHit | src/common/cache/cache.service.ts:92-157 | The step of such a read stores and computes nothing, and only a stale hit lets the call go on, to the refresh |
| CacheProtocol.ReadPassesMiss | src/common/cache/cache.service.ts:92-157 | A read that meets none gives no answer and changes nothing but where its own call stands |
| CacheProtocol.StaleHitOutlivesFreshHit | src/common/cache/cache.service.ts:158-192 | When only stale-while-revalidate calls use a key, no ttl of one outlasts a stale ttl of another, and no factory makes null for it, then in every interleaving, between refreshes, a fresh value that a reader hits has a stale copy that a reader hits for at least as long |
| CacheProtocol.BackedExactlyWhenCovering | src/common/cache/cache.service.ts:86-192 | Of values a reader hits: for every set of calls allowed on a key, all runs in which no factory makes null back each fresh hit, between refreshes, by a stale hit for as long as it is one, if and only if the set meets that condition |
| CacheProtocol.CopyDiesFirst | src/common/cache/cache.service.ts:158-192 | Whenever a ttl outlasts a stale ttl, its own or another call's, some run ends between refreshes with a fresh value that a reader hits and a dead stale copy, for any value but null |
| CacheProtocol.OnePairOfTtls | src/common/cache/cache.service.ts:128-156 | With one pair of times to live for the key, all such runs back their fresh hits if and only if the stale ttl is 0 (no expiry) or the fresh ttl is positive and no larger; so `staleTtl >= ttl` is not enough |
| CacheProtocol.MixedTtlsCanFail | src/common/cache/cache.service.ts:128-156 | Two calls with the pairs (10, 10) and (5, 5) end with a fresh value that a reader hits and a dead stale copy: a condition on each call by itself is not enough either |
| CacheProtocol.NullCopyBacksNothing | src/common/cache/cache.service.ts:137-192 | Whatever the times to live, two refreshes of which the slower makes null can end with a fresh value that a reader hits and a null copy, which every read takes for a miss |
| CacheProtocol.NullSpoilsEveryKey | src/common/cache/cache.service.ts:137-192 | So without the condition on null, all runs back their fresh hits if and only if no call on the key is allowed |
| CacheService.SoloIsARun | src/common/cache/cache.service.ts:86-192 | A call run alone from any reachable state is one of the interleavings of the step system |
| CacheService.SoloCallIsARun | src/common/cache/cache.service.ts:86-192 | So is a whole uninterrupted call |
| CacheService.CacheService.Get | src/common/cache/cache.service.ts:30-43 | Answers the live value or null; hits and misses add up to the reads, a cached null counting as a hit |
| CacheService.CacheService.AcquireLock | src/common/cache/cache.service.ts:305-314 | Acquires exactly when no live lock is there, and then leaves one of 30 seconds |
| CacheService.CacheService.GetOrSet | src/common/cache/cache.service.ts:86-125 | A live value other than null is the answer and the store stays as it is; otherwise the answer is what the factory makes, at once under the lock or after 100 ms if another call has it; the value is stored for its ttl and the own lock given up, an exception is passed on and stores nothing. All of it is a run of the protocol; that a second read after the wait answers what it meets is `HitIsAnswered` |
| CacheService.CacheService.GetOrSetStale | src/common/cache/cache.service.ts:128-156 | A fresh hit is the answer and ends the call; a stale hit is the answer and the refresh still runs; with neither, the answer is what the refresh makes or its exception. Store, clock and answer are those of the protocol |
| CacheService.CacheService.RefreshCache | src/common/cache/cache.service.ts:158-192 | Lock or wait, a second read by a call that had to wait, then the value stored as fresh and as stale copy for their times to live; the lock is given up also when the factory throws |
| Sanitizer.StripTagsLeavesNoTag | src/common/security/sanitize.interceptor.ts:111-112 | After tag stripping no `<` has a `>` anywhere behind it |
| Sanitizer.StripTagsIdempotent | src/common/security/sanitize.interceptor.ts:111-112 | Stripping tags twice is stripping them once |
| SanitizerMeaning.TagIsCutOut | src/common/security/sanitize.interceptor.ts:111-112 | A `<`, what follows it up to the first `>`, and that `>` are cut out: the text before stays, and the text behind is stripped in turn |
| SanitizerMeaning.StripTagsLeavesTheRest | src/common/security/sanitize.interceptor.ts:111-112 | Of texts with tags between them exactly the texts are left |
| SanitizerMeaning.EveryTextIsWritten | src/common/security/sanitize.interceptor.ts:111-112 | Every string can be read as such texts and tags, so the previous line says what stripping makes of any string |
| Sanitizer.ChainedEscapeIsEscape | src/common/security/sanitize.interceptor.ts:117-123 | On every string the five chained replacements are one simultaneous replacement, character by character |
| Sanitizer.EntityAtReadsTheTable | src/common/security/sanitize.interceptor.ts:158-174 | At most one alternative of the decoder matches at a position, so their order is immaterial |
| SanitizerMeaning.EntityIsDecoded | src/common/security/sanitize.interceptor.ts:158-174 | An entity of the table becomes its character, and decoding goes on behind it |
| SanitizerMeaning.OtherCharacterStays | src/common/security/sanitize.interceptor.ts:158-174 | A character at which no entity begins stays |
| Sanitizer.DecodeEscape | src/common/security/sanitize.interceptor.ts:114-123 | Decoding undoes escaping, for every string |
| Sanitizer.EscapeDecode | src/common/security/sanitize.interceptor.ts:114-123 | Escaping undoes decoding on safe strings |
| Sanitizer.SafeIsTheEscapersImage | src/common/security/sanitize.interceptor.ts:117-123 | A string is safe (no raw `<`, `>`, double or single quote, every `&` begins an emitted entity) if and only if it is the escape of some string |
| Sanitizer.CanonicaliseIdempotent | src/common/security/sanitize.interceptor.ts:111-123 | Strip, then decode, then escape is idempotent on all inputs |
| Sanitizer.DeleteAllSafe | src/common/security/sanitize.interceptor.ts:128-131 | Deleting a scheme keeps a string safe: no match can touch an entity |
| Sanitizer.TrimSafe | src/common/security/sanitize.interceptor.ts:133 | So does trimming |
| SanitizerMeaning.OnlyNullsGo | src/common/security/sanitize.interceptor.ts:125-126 | The null characters go and nothing else |
| SanitizerMeaning.FirstSchemeGoes | src/common/security/sanitize.interceptor.ts:128-131 | The first copy of a scheme goes, whatever the case of its letters; what stands before it stays, and deletion goes on behind it |
| SanitizerMeaning.OuterWhiteGoes | src/common/security/sanitize.interceptor.ts:133 | White space goes from both ends, and nothing else |
| Sanitizer.SanitizeStringOutput | src/common/security/sanitize.interceptor.ts:108-134 | For every input the output is safe, free of null bytes and trimmed |
| Sanitizer.SanitizeStringFixes | src/common/security/sanitize.interceptor.ts:108-134 | The strings the sanitiser leaves alone are exactly the safe, trimmed ones without null bytes and schemes |
| Sanitizer.SanitizeTwice | src/common/security/sanitize.interceptor.ts:128-134 | A second pass changes nothing if and only if the first left no scheme |
| SanitizerDeletions.LeftExactlyWhenWoven | src/common/security/sanitize.interceptor.ts:128-131 | A pattern is left after any number of deletion passes if and only if somewhere in the text before them it stands woven: its letters with whole copies of deleted patterns between them |
| SanitizerDeletions.TrimKeepsSchemes | src/common/security/sanitize.interceptor.ts:133 | Trimming neither hides nor makes a scheme |
| SanitizerDeletions.SanitizeTwiceExactlyWhen | src/common/security/sanitize.interceptor.ts:108-134 | Read off the text before the deletions: a second pass changes nothing if and only if no scheme stands woven with whole copies of schemes in it |
| SanitizerDeletions.SanitizeTwiceWithoutSchemes | src/common/security/sanitize.interceptor.ts:108-134 | In particular if that text has no scheme |
| Sanitizer.SanitizeTwiceCanDiffer | src/common/security/sanitize.interceptor.ts:128-134 | A nested scheme makes the second pass differ |
| Sanitizer.TagsDoNotMatter | src/common/security/sanitize.interceptor.ts:108-134 | An input and its tag-stripped form are sanitised alike |
| SanitizerMeaning.SanitizeStringMeaning | src/common/security/sanitize.interceptor.ts:108-134 | Where the deletions have nothing to do, decoding the output gives the decoded text that stood outside the tags |
| SanitizerTree.SanitizeObject | src/common/security/sanitize.interceptor.ts:65-106 | The loop over an object's fields builds the sanitised record: same keys, each value sanitised by its kind |
| SanitizerTree.SanitizeArray | src/common/security/sanitize.interceptor.ts:65-106 | The items of an array field, with nested arrays turned into objects |
| SanitizerTree.Params.SanitizeInPlace | src/common/security/sanitize.interceptor.ts:56-63 | Replaces the object's own fields by their sanitised values |
| SanitizerTree.SanitizedIsClean | src/common/security/sanitize.interceptor.ts:65-106 | In the result a skipped field is as it was, a text under an HTML field is the HTML sanitiser's output for its text, and every other text is safe, trimmed and free of null bytes; nothing else is changed but arrays in arrays, which become records |
| SanitizerTree.ShapeKept | src/common/security/sanitize.interceptor.ts:65-106 | The result has the shape of the input if and only if no array is nested directly in an array |
| SanitizerTree.NestedArrayBecomesRecord | src/common/security/sanitize.interceptor.ts:89-97 | A body whose shape is lost: every array in an array comes out as a record |
| SanitizerTree.IndexKeysRead | src/common/security/sanitize.interceptor.ts:65-106 | Its keys are the decimal indices of the inner array |
| ViewSync.KeyRecoversId | src/modules/marketplace/listings/listings.service.ts:538-557 | Cutting the prefix from a counter's key gives back the listing's id, and different ids have different keys |
| ViewSync.Conservation | src/modules/marketplace/listings/listings.service.ts:538-557 | In every interleaving of views and overlapping syncs, row, buffer, amounts in hand and losses add up to the views recorded |
| ViewSync.LostOnlyByFailure | src/modules/marketplace/listings/listings.service.ts:538-557 | Views are lost if and only if some database increment failed or found no row |
| ViewSync.ViewConservation | src/modules/forum/forum-threads.service.ts:460-479 | Row, buffer and amounts in hand never exceed the recorded views, and equal them exactly when every increment reached its row |
| ViewSync.ListingsService.IncrementViews | src/modules/marketplace/listings/listings.service.ts:195-198 | Carries any run of the protocol on by one recorded view, so that conservation goes on holding of the service's counters |
| ViewSync.ListingsService.SyncKey | src/modules/marketplace/listings/listings.service.ts:545-556 | Moves what one key held to the row it names, changing no total |
| ViewSync.ListingsService.SyncViewCounts | src/modules/marketplace/listings/listings.service.ts:538-557 | A sync nobody interrupts is a run of the protocol that empties the buffer and adds to every row what was counted under its key, whatever the order of the keys |
| Presence.RegistryAlwaysAgrees | src/modules/gateway/gateway.service.ts:49-121 | In every run of serialised handlers the two socket maps are inverse to each other, a user is in the online set exactly while a socket is left, and the database row counts those sockets |
| Presence.BroadcastsAlternate | src/modules/gateway/gateway.gateway.ts:68-148 | Without appear-offline, followers hear online, offline, online, ... of a user, and the last event is the truth |
| Presence.BelievedUnlessExposed | src/modules/gateway/gateway.gateway.ts:68-148 | With appear-offline, followers believe what `isUserVisiblyOnline` answers if and only if the user did not come online while hidden |
| Presence.ExposureHappens | src/modules/gateway/gateway.gateway.ts:68-116 | A run in which a hidden user is announced as online |
| Presence.VisiblyOnlineExactlyWhen | src/modules/gateway/gateway.service.ts:49-206 | In every run a user is visibly online if and only if some device connected and has not disconnected since, and the user has not switched to hiding without switching back |
| Presence.HidingHides | src/modules/gateway/gateway.service.ts:169-206 | Hiding makes a user invisible, showing makes visible who is online, and neither touches anybody else |
| Presence.Gateway.HandleConnection | src/modules/gateway/gateway.gateway.ts:68-116 | Registers the socket in both maps and marks the user online; followers are told exactly if the user was not in the online set |
| Presence.Gateway.HandleDisconnect | src/modules/gateway/gateway.gateway.ts:118-148 | Takes the socket out of both maps; a user with no other socket leaves the online set and followers are told, and otherwise only the connection count goes down |
| Presence.Gateway.RegisterSocket | src/modules/gateway/gateway.service.ts:49-80 | Both socket maps, the online set and the database counter after a registration |
| Presence.Gateway.UnregisterSocket | src/modules/gateway/gateway.service.ts:82-121 | The same after a deregistration |
| PresenceCommands.MapsAgree | src/modules/gateway/gateway.service.ts:49-97 | With handlers interleaved command by command, each socket's connect ending before its disconnect begins: for a socket with no handler in flight the forward and the reverse map agree |
| PresenceCommands.NobodyIsLeftOnline | src/modules/gateway/gateway.service.ts:155-167 | At that grain, once every handler has finished, nobody is in the online set without a socket |
| PresenceCommands.OnlineSetRightUnlessOvertaken | src/modules/gateway/gateway.service.ts:82-167 | Then the online set is right about a user if and only if the user has no socket, or no departing device's SREM overtook the SADD of those that stayed |
| PresenceCommands.OnlineWhileDevicesStay | src/modules/gateway/gateway.service.ts:82-167 | However the commands interleave, an online user whom no departing device is about to remove stays in the online set for as long as some device is left |
| PresenceCommands.OnlineSetCanDrift | src/modules/gateway/gateway.service.ts:155-167 | A run in which that happens: a registered device whose user is shown offline |
| PresenceReads.GatewayReads.IsUserVisiblyOnline | src/modules/gateway/gateway.service.ts:197-206 | Online and not appearing offline |
| PresenceReads.GatewayReads.GetOnlineUsers | src/modules/gateway/gateway.service.ts:229-256 | The flattened batch answers for every listed user, repetitions included, what the single read answers |
| PresenceReads.GatewayReads.GetOnlineStatusBatch | src/modules/gateway/gateway.service.ts:258-298 | The same for the three-command batch, against the single status read |
| Typing.TypingUsersAreTheRecentStarters | src/modules/gateway/gateway.service.ts:353-381 | After any timed run of start and stop calls, the users returned are exactly those whose last call was a start less than 5000 ms ago: the expiry of the shared key hides nobody |
| Typing.TypingIndicator.SetTyping | src/modules/gateway/gateway.service.ts:353-368 | Writes or removes the user's stamp and renews the key's expiry |
| Typing.TypingIndicator.GetTypingUsers | src/modules/gateway/gateway.service.ts:370-381 | The loop over the stamps returns the specified set |
| TypingCommands.ShownUnlessRanOut | src/modules/gateway/gateway.service.ts:353-381 | With other commands and the clock between HSET and EXPIRE: the users returned are exactly the recent starters, except those whose start met an older expiry that passed before the next EXPIRE |
| TypingCommands.StartCanBeLost | src/modules/gateway/gateway.service.ts:361-364 | A run of six commands in which a start of one millisecond ago is not shown |
| HashtagText.MatchesAreTheTags | src/modules/social/posts/posts.service.ts:53 | The matches of the hashtag expression are exactly the maximal word runs behind a `#` |
| HashtagText.ExtractedTags | src/modules/social/posts/posts.service.ts:654-658 | The extracted tags are those runs in lower case, each once |
| HashtagIndex.CountsAreExact | src/modules/social/posts/posts.service.ts:668-714 | In every run each hashtag row counts its links, no name has two rows, and no link belongs to a deleted post |
| HashtagIndex.LookupAgreesExactlyWhen | src/modules/social/posts/posts.service.ts:486-532 | For every run and every post the lookup may show, lookup and text scan agree unless the text was last written by a share and has the tag, or is an empty one that replaced a text that had it |
| HashtagIndex.SharedIsInNoLookup | src/modules/social/posts/posts.service.ts:281-299 | In every run, a post last written by a share is found by no hashtag |
| HashtagIndex.LookupIsNaiveSearch | src/modules/social/posts/posts.service.ts:486-532 | For posts whose text was last written by a creation or an update with a text, the lookup is the naive search over live public posts |
| HashtagIndex.LeadingHashDoesNotMatter | src/modules/social/posts/posts.service.ts:493 | One leading hash sign of the searched tag is cut, and nothing else |
| HashtagIndex.SharedTextIsNotFound | src/modules/social/posts/posts.service.ts:281-299 | A run for the first case, for any text and tag |
| HashtagIndex.EmptiedTextIsStillFound | src/modules/social/posts/posts.service.ts:168-215 | A run for the second case on the bare service method, whose request validation refuses an empty text |
| HashtagIndex.OwnerMayExactlyWhen | src/modules/social/posts/posts.service.ts:168-222 | The owner of a post passes the check of update and delete if and only if the post is live and not private |
| HashtagIndex.PrivateIsFrozen | src/modules/social/posts/posts.service.ts:124-149 | Once private, a post stays as it is in every continuation of every run |
| HashtagIndex.OwnerCannotEditPrivate | src/modules/social/posts/posts.service.ts:168-222 | A run: a private post is created, and neither its owner's edit nor the deletion that follows changes it |
| HashtagIndex.PostsService.FindOne | src/modules/social/posts/posts.service.ts:124-149 | Public posts are read by anybody, private ones only by their logged-in author, followers-only ones by the author, followers and whoever is not logged in |
| HashtagIndex.PostsService.ProcessHashtags | src/modules/social/posts/posts.service.ts:668-698 | The find-or-create loop leaves the specified index |
| HashtagIndex.PostsService.RemovePostHashtags | src/modules/social/posts/posts.service.ts:700-714 | The counting-down loop over the links leaves the specified index |
| HashtagIndex.PostsService.Create | src/modules/social/posts/posts.service.ts:79-122 | The row as given, and the index with its hashtags |
| HashtagIndex.PostsService.Update | src/modules/social/posts/posts.service.ts:168-215 | Refused unless the post is live, not private and the user's own; text and visibility that are given are stored, others stay, and a non-empty text is indexed anew |
| HashtagIndex.PostsService.Delete | src/modules/social/posts/posts.service.ts:217-248 | Refused in the same cases; the row is marked deleted and the post loses all its links |
| HashtagIndex.PostsService.Share | src/modules/social/posts/posts.service.ts:281-299 | Refused to who may not read the original; the new row is public with the given text, and the index stays |
| Comments.TreeAlways | src/modules/social/comments/comments.service.ts:55-109 | In every run a reply's parent is a root of the same post, and every reply counter, of deleted comments too, is the number of live replies |
| Comments.AnswerJoinsThread | src/modules/social/comments/comments.service.ts:69-103 | An answer joins the thread of the comment it answers: its parent is that thread's root, whose replies and counter grow by it |
| Comments.OnlyTheOwnerDeletes | src/modules/social/comments/comments.service.ts:343-351 | A step makes a live comment disappear if and only if it is the deletion by its owner |
| Comments.DeletedExactlyByTheOwner | src/modules/social/comments/comments.service.ts:343-351 | In every run a comment is gone if and only if its owner deleted it |
| Comments.CommentsCountFormula | src/modules/social/comments/comments.service.ts:343-377 | The counter of a post is the sum over live roots of one plus their replies, plus what the replies of deleted roots changed since the deletion |
| Comments.CountIsVisibleUnlessDrifted | src/modules/social/comments/comments.service.ts:343-377 | It equals the visible comments if and only if that second sum is zero |
| Comments.CountIsVisibleExactlyWhen | src/modules/social/comments/comments.service.ts:55-109 | Said of the operations: the counter is off by the replies created under deleted roots less those deleted there, and right if and only if these were equally many |
| Comments.DriftStep | src/modules/social/comments/comments.service.ts:55-109 | The second sum moves exactly in the steps that add or remove a reply under a deleted root |
| Comments.CountIsVisible | src/modules/social/comments/comments.service.ts:343-377 | So runs without such steps keep the counter right |
| Comments.CounterCanGoNegative | src/modules/social/comments/comments.service.ts:343-377 | Deleting a root and then its reply leaves a counter of -1 |
| Comments.CommentsService.Create | src/modules/social/comments/comments.service.ts:55-109 | Both error cases change nothing; otherwise the row is the user's, on the post, a root exactly if it answers nothing, hung under the comment it answers if that is a root and under that comment's parent if not; the row it hangs under and the post are counted up by one and no other row changes |
| Comments.CommentsService.Delete | src/modules/social/comments/comments.service.ts:343-377 | Only the owner's live comment; the row is marked, its parent's counter goes down by one, the post's by one and the replies it had, and no other row changes |
| AuthTokens.OneUsableTokenPerChain | src/modules/auth/auth.service.ts:207-257 | In every run tokens form chains that do not fork, as many as there were logins and verifications, with at most one usable token each |
| AuthTokens.ChainsDoNotFork | src/modules/auth/auth.service.ts:207-257 | Of two tokens of one chain, the later was reached from the earlier by exchanges |
| AuthTokens.RevocationIsPermanent | src/modules/auth/auth.service.ts:207-278 | A token that is not usable never becomes usable again |
| AuthTokens.ResetRevokesEverything | src/modules/auth/auth.service.ts:300-346 | In every run, from an accepted reset until the user next logs in or verifies a code, the user has no usable refresh token |
| AuthTokens.UsableExactlyWhen | src/modules/auth/auth.service.ts:207-417 | In every run a token is usable if and only if it was issued at most seven days ago and no accepted exchange, logout or reset has met it since |
| AuthTokens.UsableIsExchanged | src/modules/auth/auth.service.ts:207-257 | In every run its user gets a successor good for seven days for a token that matches and is usable, which is revoked, and nothing otherwise |
| AuthTokens.RevokesExactly | src/modules/auth/auth.service.ts:207-346 | An operation revokes the tokens it withdraws, and no other |
| AuthTokens.IssuesForAWeek | src/modules/auth/auth.service.ts:371-417 | Only logins, verifications and exchanges issue a token, to a known user and for seven days |
| AuthTokens.CodesAreUsedOnce | src/modules/auth/auth.service.ts:109-162 | No one-time code is accepted twice |
| AuthTokens.AuthService.Register | src/modules/auth/auth.service.ts:59-107 | A new, unverified user and a code for ten minutes to verify the e-mail, or nothing if a name is taken |
| AuthTokens.AuthService.ForgotPassword | src/modules/auth/auth.service.ts:280-298 | A reset code for ten minutes for a known user, nothing for others |
| AuthTokens.AuthService.Login | src/modules/auth/auth.service.ts:164-205 | Exactly for a known, verified, active user with the right password, a token of that user good for seven days is added; otherwise nothing changes |
| AuthTokens.AuthService.VerifyOtp | src/modules/auth/auth.service.ts:109-162 | An unused, unexpired code is consumed, verifies the e-mail if that is its kind, and adds a token good for seven days; otherwise nothing changes |
| AuthTokens.AuthService.RefreshTokens | src/modules/auth/auth.service.ts:207-257 | Exactly the user's own, unrevoked, unexpired token that matches its hash is revoked, and a successor good for seven days is added for a known user; otherwise nothing changes |
| AuthTokens.AuthService.Logout | src/modules/auth/auth.service.ts:259-278 | Revokes the user's presented token, or all of the user's when none is given, and no other |
| AuthTokens.AuthService.ResetPassword | src/modules/auth/auth.service.ts:300-346 | For a known user an unused, unexpired code is consumed and all tokens of the user are revoked, and no other; otherwise nothing changes |
| Paging.CursorLeadsOn | src/modules/chat/chat.service.ts:281-325 | The last row of a page is a cursor behind which exactly the rest of the order lies, and `hasMore` says whether there is any |
| Paging.WalkIsComplete | src/modules/chat/chat.service.ts:281-325 | For any limit of at least 1, asking on until `hasMore` is false ends and yields every row once, newest first |
| Paging.GetMessages | src/modules/chat/chat.service.ts:281-325 | The messages of the window (before a time, or else after one) in chronological order, as many as the limit or 50, and none left out is newer than one shown; `hasMore` if and only if one is left out |
| Paging.ScrollBackIsTheWalk | src/modules/chat/chat.service.ts:281-325 | The client's scrolling back by `before`, older pages put in front, ends and is the walk turned round |
| Paging.ScrollPageIsGetMessages | src/modules/chat/chat.service.ts:281-325 | Each page of that scrolling is the one the method answers |
| Paging.FeedWalkIsTheWalk | src/modules/social/posts/posts.service.ts:353-388 | Walking by the id of the last row is walking by its time stamp |
| Paging.FeedWalkIsComplete | src/modules/social/posts/posts.service.ts:353-388 | From the first page on, the feed yields every visible row once, newest first |
| Paging.GetFeed | src/modules/social/posts/posts.service.ts:353-388 | The visible rows behind the cursor's row, all of them if the cursor names none, newest first and up to the limit, none left out newer than one shown; `hasMore` if and only if one is left out, and the last row is the next cursor |
| Paging.ZeroLimitMakesNoProgress | src/modules/social/posts/posts.service.ts:365-388 | Of the bare method: with limit 0, which the request validation refuses, there is no row and no cursor, and `hasMore` whenever there is anything |
| Paging.OldestNeverAdvances | src/modules/social/comments/comments.service.ts:159-189 | In OLDEST order the second page is the first one without its last row and claims to be the end |
| Paging.OldestWalkIsCompleteExactlyWhen | src/modules/social/comments/comments.service.ts:159-189 | So a walk in OLDEST order shows every comment if and only if they all fit on the first page |
| Stories.GroupByUser | src/modules/social/stories/stories.service.ts:238-278 | The one-pass loop over an insertion-ordered Map: one group per author, holding that author's stories as often as they occur, with right `hasUnviewed` and `latestStoryAt` |
| Stories.ComparatorIsAntisymmetric | src/modules/social/stories/stories.service.ts:284-295 | The comparator contradicts itself on two groups exactly when both are the reader's |
| Stories.ComparatorIsTransitive | src/modules/social/stories/stories.service.ts:284-295 | On groups of different users both 'before' and 'tied' are transitive |
| Stories.SortedFeed | src/modules/social/stories/stories.service.ts:281-295 | The sorted groups: reader first, then who has something new, then by latest story; no user twice |
| Stories.GetFeedStories | src/modules/social/stories/stories.service.ts:180-305 | Every unexpired story of the reader or somebody followed, by nobody blocked, is in its author's group as often as in the table, with whether the reader viewed it; groups hold nothing else, each in order of creation, and stand in feed order |
| UnreadCount.OnlyInvalidatedCountsChange | src/modules/notifications/notifications.service.ts:300-311 | A write changes no unread count but that of the user whose cache it drops; deleting old rows changes none |
| UnreadCount.NotificationsService.Create | src/modules/notifications/notifications.service.ts:53-126 | Adds the row unless the preferences say no, keeping every cached count right |
| UnreadCount.NotificationsService.MarkAsRead | src/modules/notifications/notifications.service.ts:194-215 | Marks the user's own row, and drops the cached count exactly if it was unread |
| UnreadCount.NotificationsService.MarkAllAsRead | src/modules/notifications/notifications.service.ts:220-229 | Marks the user's rows and no others, and answers how many were unread |
| UnreadCount.NotificationsService.GetUnreadCount | src/modules/notifications/notifications.service.ts:234-257 | Answers the number of unread rows; an entry of at most 300000 ms is used as it is, and otherwise a new one is stored |
| UnreadCount.NotificationsService.DeleteOld | src/modules/notifications/notifications.service.ts:300-311 | Removes old read rows and leaves every count and the cache as they were |
| UnreadCount.NotificationsService.Delete | src/modules/notifications/notifications.service.ts:316-330 | Removes the user's own row, and drops the cached count exactly if it was unread |
| UnreadCount.CachedCountWasTrue | src/modules/notifications/notifications.service.ts:234-257 | With miss, count and set as separate steps of any number of calls: a cached count was the true one at an instant between the miss and the set of the call that wrote it |
| UnreadCount.RightExactlyWhenUnchangedDuringFill | src/modules/notifications/notifications.service.ts:234-257 | With no write waiting for its invalidation, a cached count is right if and only if the number of unread rows was the same at the count and at the set of the fill that wrote it |
| UnreadCount.WrongOnlyByRace | src/modules/notifications/notifications.service.ts:234-257 | It can be wrong only if an invalidation fell between that count and that set |
| UnreadCount.RaceLeavesItWrong | src/modules/notifications/notifications.service.ts:234-257 | A run that ends with all calls finished and a wrong cached count |
| Forum.CountersAreExact | src/modules/forum/forum-threads.service.ts:57-225 | In every run `threadsCount` is the number of live threads of a category, and both `likesCount` fields the number of like rows |
| Forum.CachedListIsTheTable | src/modules/forum/forum-categories.service.ts:41-60 | In every run the cached category list, when present, shows each category once as it is now, counters included, by sort order and name |
| Forum.RepliesCountUnlessSwept | src/modules/forum/forum-threads.service.ts:272-300 | In every run `repliesCount` exceeds the live replies by exactly those that a category's deletion took away with a parent; it is right if and only if there are none |
| Forum.SweptStep | src/modules/forum/forum-categories.service.ts:109-113 | Only the deletion of a category sweeps, and from a surviving thread it takes exactly the live replies descending from a reply of the deleted threads |
| Forum.RepliesCountExactlyWhen | src/modules/forum/forum-categories.service.ts:109-113 | Said of the run: a surviving thread's `repliesCount` is right if and only if no deletion of a category in it took such a reply |
| Forum.RepliesCountIsExact | src/modules/forum/forum-threads.service.ts:272-300 | In runs whose replies name parents of their own thread, `repliesCount` is the number of live replies |
| Forum.RepliesCountCanBeWrong | src/modules/forum/forum-threads.service.ts:283-288 | A run in which a parent of another thread makes it wrong |
| Forum.ThreadFoundExactlyWhen | src/modules/forum/forum-threads.service.ts:182-193 | In every run a thread can be found if and only if neither its owner has deleted it nor has its category been deleted |
| Forum.ReplyFoundExactlyWhen | src/modules/forum/forum-threads.service.ts:382-397 | In every run a reply can be found if and only if neither its owner has deleted it nor has a category gone that holds its thread or that of a reply above it |
| Forum.DoomedExactlyWhen | src/modules/forum/forum-categories.service.ts:109-113 | A category's deletion takes exactly the replies that stand in its threads or below such a reply |
| Forum.NewReplyFound | src/modules/forum/forum-threads.service.ts:272-300 | Every new reply stands in a thread that can be found and is not locked |
| ForumListing.ListingIsRight | src/modules/forum/forum-categories.service.ts:48-50 | The sorted query result lists every category once, by sort order and then by name: a name before those it begins, and else by the first character that differs |
| Forum.ForumService.FindAllCategories | src/modules/forum/forum-categories.service.ts:41-60 | Answers the sorted table from cache or database, and leaves it cached |
| Forum.ForumService.CreateCategory | src/modules/forum/forum-categories.service.ts:23-39 | Adds the row and drops the list, or reports the slug as taken |
| Forum.ForumService.UpdateCategory | src/modules/forum/forum-categories.service.ts:86-107 | Changes the given name and slug and drops the list; a missing category and a slug another one has are refused |
| Forum.ForumService.RemoveCategory | src/modules/forum/forum-categories.service.ts:109-113 | Removes the category, its threads, the replies in them or below such replies, and the likes of all these, and nothing else; drops the list |
| Forum.ForumService.Create | src/modules/forum/forum-threads.service.ts:57-77 | Adds the thread and counts it |
| Forum.ForumService.Delete | src/modules/forum/forum-threads.service.ts:182-193 | Soft-deletes the owner's thread and counts it down |
| Forum.ForumService.Like | src/modules/forum/forum-threads.service.ts:199-225 | Toggles the like row and answers the number of like rows |
| Forum.ForumService.CreateReply | src/modules/forum/forum-threads.service.ts:272-300 | Adds the reply and counts it, unless the thread is missing or locked or the parent is |
| Forum.ForumService.RemoveReply | src/modules/forum/forum-threads.service.ts:382-397 | Soft-deletes the owner's reply and counts it down, also under a deleted thread |
| Forum.ForumService.LikeReply | src/modules/forum/forum-threads.service.ts:399-425 | Toggles the like row of a reply and answers the number of like rows |
| Metrics.PercentileIsNearestRank | src/common/logging/metrics.service.ts:274-278 | In exact arithmetic at least p per cent of the samples are at most the result, and fewer are below it |
| Metrics.PercentilesAscend | src/common/logging/metrics.service.ts:135-137 | A higher percentage gives no smaller result |
| Metrics.MeanBetween | src/common/logging/metrics.service.ts:133-134 | The mean lies between the least and the greatest sample |
| Metrics.CounterIsTheBalance | src/common/logging/metrics.service.ts:114-120 | The connection counter is opens minus closes if and only if the closes never ran ahead |
| Metrics.MetricsService.RecordRequest | src/common/logging/metrics.service.ts:70-82 | The window is the last 10000 durations since the reset, and both counters are exact |
| Metrics.MetricsService.GetRequestMetrics | src/common/logging/metrics.service.ts:123-141 | Totals, error rate, mean and the three ordered percentiles of the window |
| Metrics.MetricsService.ResetHourlyMetrics | src/common/logging/metrics.service.ts:252-271 | Starts the window anew, unless there is no logger |

## Left out

- Sanitizer.SanitizeString: works on Unicode scalar values, so lone surrogates are not representable; the HTML blacklist of `sanitizeHtml` is a function parameter of the tree model.
- SanitizerTree.SanitizeObject: does not model the special key `__proto__`; an object's fields are a list of key and value.
- CacheProtocol.MutualExclusion: does not claim a single flight; calls that lose the lock may compute as well, as in the code.
- CacheProtocol.BackedExactlyWhenCovering: application keys are taken to be apart from each other's `:stale` and `lock:` forms; failing Redis commands are not modelled.
- HashtagIndex.LookupIsNaiveSearch: lower-casing of the searched tag beyond ASCII is not modelled, and the page-number arithmetic of the lookup is left out.
- Presence.RegistryAlwaysAgrees: socket ids are fresh; the room joins and the last-seen stamp are not part of the state.
- PresenceCommands.MapsAgree: models the commands on the socket maps and the online set, not the database rows.
- Typing.TypingUsersAreTheRecentStarters: one call is one step; the clock does not go back.
- TypingCommands.ShownUnlessRanOut: a start's stamp is the time of its HSET.
- Paging.WalkIsComplete: for rows with distinct time stamps that do not change during the walk; OLDEST order has its own result, POPULAR order none.
- Stories.GetFeedStories: user names, avatars and media fields are not carried along; the order of ties, which the stable sort fixes, is not stated.
- UnreadCount.CachedCountWasTrue: the expiry of an entry is an event that may occur at any time.
- Forum.CachedListIsTheTable: no request sets a sort order, so in the runs it is 0 throughout; names are compared by character code, not by a database collation; descriptions, icons and dates are not modelled.
- Metrics.PercentileIsNearestRank: rationals; the rounding of floating-point percentages is not modelled, nor are requests per second.
- AuthTokens.AuthService: bcrypt, JWT signing and random codes are arguments; token blacklisting and rate limits are not part of this model.
- Likes of posts and comments, mentions, images, `sharesCount` and story views: counters of the same kind as those modelled.
- Chat conversations and their unread counters, thread subscriptions, pinning.
- Hard deletion of users and what it cascades to.
- Controllers, validation, guards, configuration, file storage, mail, push and socket transport.
