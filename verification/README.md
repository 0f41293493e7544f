# Verified models of the forum's application layer

This project models, in Dafny, the stateful algorithms of the forum's application layer and proves what they promise.
Each module is one component; the modules that stand for repositories hold small in-memory tables.

- **Post lists** (`Base64Url`, `Numerals`, `Cursors`, `FilteredWalk`, `PostStore`, `PostQuery`, `TagSearchQuery`, `PostLists`, `Pager`,
  `ListWalks`, `ShownPosts`, `ListTotals`, `WebPagination`): lists that re-fetch batches from an ordered source, filter by board visibility, fetch one more than a page,
  cut it off and print an opaque cursor; and the numbered web pages on top of them. The main results say that following the printed cursors
  is the same as filtering the whole list, said once of the tables alone (`ShownPosts`), and when the printed totals count what is shown.
- **Cache** (`Cache`, `Sessions`, `CacheKeys`, `TagKeys`, `CacheEntries`, `SharedCache`, `Events`, `Invalidation`, `EditInvalidation`): the in-memory cache with expiry and a prefix index,
  the sessions kept in it, the keys readers print, and the handler that drops stale answers.
- **Forum tables** (`ForumStore`, `Embeds`, `AttachmentCoordinator`, `TagCoordinator`, `DeletionWorkflow`, `PostCommands`, `ReactionCommands`,
  `CommentCommands`, `AttachmentCommands`, `ForumRun`): posts, tags, comments, reactions, attachments, files and the outbox, changed by
  transactions. `ForumStore.Sound` collects what every reachable state promises; `ForumRun.AnyRun` shows it for every run.
- **Accounts** (`OneTimeTokens`, `Account`, `MailTokens`, `GuestCleanup`, `GuestLocks`): guest upgrade and password reset with their compensations, one-time
  tokens under every interleaving of repository calls, and the cleanup of unused guests.

How failures are modelled: a failed call has no effect, and a transaction with a failed call leaves nothing behind. In `Account` an input
(`Faults`) says which calls fail, so every result is stated for every pattern of failures. Elsewhere any call may fail; a store marked `reliable`
(or a call with `flaky` false) never fails, and contracts say under which condition a command then succeeds. Ids, tokens, storage keys and UUIDs
that the program draws at random are parameters required to be unused; clocks only move forward. A ranked result is required to name a published
post on the board it repeats, since the query code looks that board up and does not check the post's status again.

Where the code does something other than its surroundings suggest, the model follows the code and a lemma says exactly when:

- A ranked board list first reads its cursor as an id cursor, so it refuses every cursor it prints (`ListWalks.RankedBoardRefusesCursors`);
  so does a ranked tag list (`ListWalks.RankedTagRefusesCursors`).
- The total of the feed or of a ranked search also counts posts that the ranking does not hold (`ListTotals.FeedWalkTotalIff`, `ListTotals.RankedSearchTotalIff`).
- An embed printed for a file name with `]` cannot be read back (`Embeds.EmbedRoundTripIff`).
- A redelivered mail request is mailed again once its token row has been deleted (`MailTokens.SendsIff`, `MailTokens.MailsAgainAfterInvalidation`).
- A cleanup mark written from a stale copy can hit a file that a post has embedded since (`AttachmentCommands.StaleMarkIff`, and a run that ends so in
  `AttachmentCommands.StaleMarkAfterEdit`).
- An event of one tag also drops lists of another tag whose name extends its own by a colon, or whose name it extends itself by a colon and the
  beginning of what a key prints there, such as `limit:5` (`TagKeys.Reaches`). A single list is dropped exactly as `Invalidation.DropsExactly` says, and
  a tag keeps all its lists exactly as `Invalidation.TagSparedIff` says; `Invalidation.ColonReachesAnotherTag` shows one pair each way.
- A search looks in the cache before it reads its cursor, so a cursor text with colons in it can be answered with another search's page
  (`CacheEntries.SharedSearchIff`); no cursor that the code prints or reads holds a colon (`Cursors.ReadableHoldsNoColon`).
- No event drops the administrators' board lists (`Invalidation.AdminBoardListStays`).

To check everything: `dafny verify dfyconfig.toml`.

## Model

| member | source | states |
|---|---|---|
| Base64Url.RoundTrip | internal/application/service/common/public_cursor.go:14-36 | Decoding unpadded base64url (sections 3.2 and 5 of RFC 4648) undoes encoding for every byte string, and no character of the encoding is white space, so trimming leaves it as it is |
| Base64Url.KnownVectors | internal/application/service/common/public_cursor.go:14-36 | The test vectors of section 10 of RFC 4648, and the two letters that section 5 changes |
| Numerals.ParsePrintInt64 | internal/application/service/post/feed_cursor.go:40-64 | Reading a printed decimal gives the number back, for every 64-bit signed integer |
| Numerals.ParsePrintUint64 | internal/application/service/post/feed_cursor.go:33-64 | Reading printed hexadecimal or decimal gives the number back, for every 64-bit pattern, and no print holds a colon |
| Cursors.OpaqueRoundTrip | internal/application/service/common/public_cursor.go:14-36 | The id cursor decodes to the id it was printed from, for every nonnegative 64-bit id |
| Cursors.FeedRoundTrip | internal/application/service/post/feed_cursor.go:16-64 | The feed cursor decodes to sort, window, score bits, time and id, for every score pattern, time and nonnegative id |
| Cursors.SearchRoundTrip | internal/application/service/post/search_cursor.go:16-54 | The search cursor decodes to sort, window, score bits and id, likewise |
| Cursors.DecodersAreDisjoint | internal/application/service/post/query_handler.go:60-110 | No nonblank cursor is accepted by two of the three decoders |
| Cursors.FeedCursorBelongs | internal/application/service/post/feed_cursor.go:16-64 | A feed cursor printed for one sort and window decodes under these and is refused under every other |
| Cursors.SearchCursorBelongs | internal/application/service/post/search_cursor.go:16-54 | The same for search cursors |
| Cursors.DecodedInRange | internal/application/service/post/feed_cursor.go:16-64 | What a decoder accepts is for the sort and window asked for and in range, whoever wrote it; ids are not negative |
| Cursors.FirstOpaqueCursor | internal/application/service/common/public_cursor.go:34-36 | The id cursor of 1 is the text djE6MQ |
| Cursors.FirstFeedCursor | internal/application/service/post/feed_cursor.go:62-64 | The feed cursor is version, sort, window, score pattern in hexadecimal, time and id, colon between colon, in base64url |
| FilteredWalk.WalkShowsAll | internal/application/service/post/query_handler.go:616-699 | Joining the pages of a filtered walk gives exactly the filtered rows after the start, in order, each once |
| FilteredWalk.WalkIsSlicing | internal/application/service/post/query_handler.go:616-699 | Page i of a filtered walk is the i-th slice of the filtered rows, and there are as many pages as the ceiling of total by limit |
| FilteredWalk.NextPage | internal/application/service/post/query_handler.go:676-699 | What follows the last item kept on a page is what the filter leaves beyond that page |
| PostQuery.ResolveBoardVisibility | internal/application/service/post/query_handler.go:520-543 | The visibility map tells the truth about every board it knows, and after the call knows every board of the posts; asked for are exactly the boards not known before, each once. What visible means to a reader is said field by field by the ShownPosts rows |
| PostQuery.DistinctPostIDs | internal/application/service/post/query_handler.go:630-646 | Every id of a batch, each once |
| PostQuery.NextBatch | internal/application/service/post/query_handler.go:625-690 | One round of the ranked loop keeps exactly the rows of the part it consumed that are found, on a visible board and wanted, and stops early only when the page is full |
| PostQuery.CollectRanked | internal/application/service/post/query_handler.go:616-690 | The batch loop terminates with the first fetchLimit rows of the filtered ranking after the cursor, however batches and filters fall |
| PostQuery.LoadRankedPosts | internal/application/service/post/query_handler.go:616-699 | The page, its has-more flag and its printed cursor are those of the filtered ranking after the cursor; an error leaves only a failed call or a bad limit as its cause |
| TagSearchQuery.LoadPublishedPostsByTag | internal/application/service/post/query_handler.go:464-518 | The same for the posts of a tag, and the error cases: unknown tag, bad limit, failed call |
| TagSearchQuery.LoadPublishedPostsBySearch | internal/application/service/post/query_handler.go:545-608 | The same for search results by relevance |
| TagSearchQuery.LoadActiveTagPostIDSet | internal/application/service/post/query_handler.go:867-887 | The loop over 1000 relations at a time ends with the set of all posts under the tag |
| TagSearchQuery.LoadSearchMatchSet | internal/application/service/post/query_handler.go:719-745 | The loop over 1000 results at a time ends with the set of all matches of the query |
| TagSearchQuery.CountVisiblePostsFromIDs | internal/application/service/post/query_handler.go:766-795 | The count is the number of ids that name a published post on a visible board |
| PostLists.GetFeed | internal/application/service/post/query_handler.go:328-361 | A feed request answers what the feed's specification answers, for every sort, window, limit and cursor text, with the total counted board by board |
| PostLists.GetPostsList | internal/application/service/post/query_handler.go:60-154 | A board list request, likewise, including the order in which its arguments are refused, with the number of published posts of the board as its total |
| PostLists.GetPostsByTag | internal/application/service/post/query_handler.go:191-272 | A tag list request, by date or ranked, from the name as given: the refusals in their order, the page, and a total counted over the set of the tag's posts |
| PostLists.SearchPosts | internal/application/service/post/query_handler.go:274-326 | A search request from the query as given, ranked or by relevance: the refusals in their order, the page, and a total counted over the set of matches |
| Pager.FollowShowsAll | internal/application/service/post/query_handler.go:328-361 | Any list whose cursor text means where it left off shows, when its cursors are followed from a blank one, the slices of the filtered rows and then stops; asking for more pages changes nothing |
| ListWalks.FeedWalk | internal/application/service/post/query_handler.go:616-699 | Following the feed's cursors from a blank one visits exactly the ranked posts that are found on a visible board, in ranking order, each once, in full pages but the last |
| ListWalks.RankedSearchWalk | internal/application/service/post/query_handler.go:701-745 | Following a ranked search visits exactly the ranked, visible posts among the matches of the query |
| ListWalks.RelevanceWalk | internal/application/service/post/query_handler.go:545-608 | Following a search by relevance visits exactly the visible matches in relevance order |
| ListWalks.BoardWalk | internal/application/service/common/cursor_list.go:12-28 | Following a board list by date visits exactly the board's published posts, newest first |
| ListWalks.TagWalk | internal/application/service/post/query_handler.go:464-518 | Following a tag list by date visits exactly the visible posts of the tag |
| ShownPosts.FeedHidesHidden | internal/application/service/post/query_handler.go:520-543 | Whatever the cursor, every id a feed lists is a published post on a board that exists and is not hidden |
| ShownPosts.BoardHidesHidden | internal/application/service/post/query_handler.go:60-154 | Whatever the cursor, every id a board list gives, by date or ranked, is a published post on that board, which is not hidden |
| ShownPosts.HiddenBoardIsNotFound | internal/application/service/post/query_handler.go:68-78 | The list of a hidden or unknown board is an error, and not found when limit and cursor are in order |
| ShownPosts.TagHidesHidden | internal/application/service/post/query_handler.go:191-272 | Whatever the cursor, every id a tag list gives, by date or ranked, is a published post on a board that is not hidden, and among the relations of the tag |
| ShownPosts.SearchHidesHidden | internal/application/service/post/query_handler.go:274-326 | Whatever the cursor, every id a search gives is found by the index for the normalised query, and its board is not hidden; ranked, it is also published |
| ShownPosts.FeedShows | internal/application/service/post/query_handler.go:328-361 | Following a feed shows, in ranking order, exactly the ranked posts that are published on a board that is not hidden, told from the tables alone |
| ShownPosts.RankedSearchShows | internal/application/service/post/query_handler.go:701-745 | Following a ranked search shows those of them that the index finds |
| ShownPosts.RelevanceShows | internal/application/service/post/query_handler.go:545-608 | Following a search by relevance shows exactly the answers of the index whose board is not hidden, in their order |
| ShownPosts.BoardShows | internal/application/service/post/query_handler.go:82-124 | Following a board list by date shows exactly the published posts of the board, newest first |
| ShownPosts.TagShows | internal/application/service/post/query_handler.go:464-518 | Following a tag list by date shows exactly the published posts on boards not hidden that the tag relates to, newest first |
| ShownPosts.RankedTagShows | internal/application/service/post/query_handler.go:238-272 | A ranked tag list answers a blank cursor with the first rows of the ranking that are seen and related to the tag; followed, it shows no more, so all of them if and only if they fit on one page |
| ShownPosts.RankedBoardShows | internal/application/service/post/query_handler.go:131-154 | A ranked board list, likewise, with the seen posts of the board |
| ShownPosts.FeedRefusals | internal/application/service/post/query_handler.go:328-340 | A feed is answered if and only if the limit is 1 to 1000, sort and window are accepted and the cursor decodes under them; otherwise the input is invalid |
| ShownPosts.BoardRefusals | internal/application/service/post/query_handler.go:60-131 | When a board list is answered, and which error is given otherwise, in the order of the checks |
| ShownPosts.TagRefusals | internal/application/service/post/query_handler.go:191-237 | The same for a tag list |
| ShownPosts.SearchRefusals | internal/application/service/post/query_handler.go:274-300 | The same for a search |
| ShownPosts.RankingOrder | internal/infrastructure/persistence/inmemory/postRankingRepository.go:244-260 | By date a ranking has the newer first, otherwise the higher score first and the newer of equals, with floats compared by sign and magnitude; the greater id decides last |
| PostLists.SortWords | internal/application/service/post/query_handler.go:797-824 | The accepted sorts and windows after trimming and lower-casing: a blank sort is the fallback, a blank window of top is 7d, the others take no window |
| PostLists.SearchWords | internal/application/service/post/query_handler.go:826-865 | The same for searches: a blank sort is relevance whatever the window, and best is refused |
| PostLists.QueryWords | internal/application/service/post/query_handler.go:889-892 | Normalising a query word by word: white space in front goes, a word is put in lower case, and one blank stands between it and the rest, if there is a rest |
| ListWalks.TagTotalIsWalkLength | internal/application/service/post/query_handler.go:226-234 | The printed total of a tag list, counted over a set of ids, equals the number of posts the full walk shows, counted by filtering |
| ListTotals.BoardTotalIsWalkLength | internal/application/service/post/query_handler.go:95-154 | The printed total of a board list by date equals the number of posts its full walk shows |
| ListTotals.FeedTotalCounts | internal/application/service/post/query_handler.go:747-764 | The feed's total, summed board by board, is the number of published posts on the listed boards, each counted once; only the first 1000 visible boards are listed |
| ListTotals.FeedTotalIff | internal/application/service/post/query_handler.go:747-764 | When no post is ranked twice, the feed's total is at least what the ranking shows of the listed boards, and equal if and only if every published post on them is ranked |
| ListTotals.FeedWalkTotalIff | internal/application/service/post/query_handler.go:328-361 | While no more than 1000 boards are visible, the same holds of everything the feed shows when its cursors are followed to the end |
| ListTotals.RankedTotalIff | internal/application/service/post/query_handler.go:238-272 | When no post is ranked twice, the total of a ranked list of wanted posts is at least what the ranking shows of them, and equal if and only if each that is published and visible is ranked |
| ListTotals.RankedSearchTotalIff | internal/application/service/post/query_handler.go:274-326 | The same for a whole ranked search, followed to its end by its cursors |
| ListTotals.RelevanceTotalIff | internal/application/service/post/query_handler.go:274-326 | A search by relevance, followed to its end, shows exactly the counted posts if and only if every answer of the index is shown just when the tables would show its post; total and walk length then agree |
| ListWalks.RankedBoardRefusesCursors | internal/application/service/post/query_handler.go:64-67 | A ranked board list refuses every nonblank cursor, its own next cursor included |
| ListWalks.RankedTagRefusesCursors | internal/application/service/post/query_handler.go:191-199 | A ranked tag list refuses every nonblank cursor too |
| ListWalks.RankedBoardWalkIsComplete | internal/application/service/post/query_handler.go:60-154 | So following a ranked board list shows the first page only: it shows everything if and only if everything fits on one page |
| WebPagination.VisiblePageWindow | internal/delivery/web/pagination.go:66-92 | The window of page numbers is consecutive, inside 1 to the last page, has min(5, last) entries, holds the page nearest to the one asked for, and centres it unless an end is near |
| WebPagination.BuildPagination | internal/delivery/web/pagination.go:27-64 | The page is the one asked for or the nearest in range, the pages are the consecutive window around it up to the last page known or assumed, and the previous and next links are its neighbours in it, or absent at the ends |
| WebPagination.LoadSequentialPage | internal/delivery/web/pagination.go:195-219 | The token loop equals the recursive walk to the page asked for, or to the nearest in 1 to 1000, errors included |
| WebPagination.WebPageIsSlice | internal/delivery/web/pagination.go:195-219 | For any list whose walk is complete, a numbered page of 1 to 1000 is that part of the list, or the last part when there are fewer; below 1 it is the first and above 1000 that of 1000; has-more tells whether a later page exists |
| WebPagination.LandingAgreesWithTotal | internal/delivery/web/pagination.go:94-103 | The landing page is the nearest to the page asked for among the pages printed from the count |
| WebPagination.TagWebPage | internal/delivery/web/pagination.go:195-219 | For tag lists the landing page, its posts and its last page follow from the printed total |
| Cache.CachePrefixes | internal/infrastructure/cache/inmemory/in_memory_cache.go:219-227 | The prefixes listed are exactly the nonempty prefixes of the key that end in a colon |
| Cache.AddIndexes | internal/infrastructure/cache/inmemory/in_memory_cache.go:183-192 | Adding a key to its groups turns a correct index of the keys into a correct index of the keys and the new one |
| Cache.RemoveIndexes | internal/infrastructure/cache/inmemory/in_memory_cache.go:194-205 | Taking a key out of its groups and dropping emptied groups keeps the index correct |
| Cache.GroupIsScan | internal/infrastructure/cache/inmemory/in_memory_cache.go:207-217 | In a correct index the group of a colon-ended prefix is exactly what a scan of all keys would find |
| Cache.InMemoryCache.Get | internal/infrastructure/cache/inmemory/in_memory_cache.go:35-52 | Get answers what a plain map of unexpired values holds at a moment during the call; evicting on the way changes no later answer |
| Cache.InMemoryCache.Set | internal/infrastructure/cache/inmemory/in_memory_cache.go:54-60 | Set is an update of the plain map at every time |
| Cache.InMemoryCache.SetWithTTL | internal/infrastructure/cache/inmemory/in_memory_cache.go:62-74 | The value lives until its time is up, forever when the lifetime is zero or less, and no other key changes |
| Cache.InMemoryCache.Delete | internal/infrastructure/cache/inmemory/in_memory_cache.go:76-82 | Delete removes the key from the plain map at every time and keeps the index correct |
| Cache.InMemoryCache.DeleteByPrefix | internal/infrastructure/cache/inmemory/in_memory_cache.go:84-105 | By index or by scan the same keys go, all those under the prefix and no other, and the count is their number |
| Cache.InMemoryCache.ExistsByPrefix | internal/infrastructure/cache/inmemory/in_memory_cache.go:107-138 | True if and only if the plain map holds an unexpired key under the prefix, whatever order the search and its evictions take |
| Cache.InMemoryCache.GetOrSetWithTTL | internal/infrastructure/cache/inmemory/in_memory_cache.go:140-166 | One caller at a time: a live value is returned and nothing changes; otherwise the loaded value is returned and stored, or the loader's error is returned and nothing is stored |
| Sessions.PrefixOwnsItsKeys | internal/infrastructure/auth/CacheSessionRepository.go:106-112 | A user's session prefix covers a session key if and only if the key is that user's |
| Sessions.SessionKeysDiffer | internal/infrastructure/auth/CacheSessionRepository.go:106-112 | Two session keys are equal if and only if user and token are |
| Sessions.CacheSessionRepository.Save | internal/infrastructure/auth/CacheSessionRepository.go:26-30 | The session exists until its lifetime ends; no other session of anybody changes |
| Sessions.CacheSessionRepository.DeleteByUser | internal/infrastructure/auth/CacheSessionRepository.go:38-43 | All sessions of the user end, and nobody else's, at every time |
| Sessions.CacheSessionRepository.Exists | internal/infrastructure/auth/CacheSessionRepository.go:45-57 | Answers whether that session is live at a moment during the call |
| Sessions.CacheSessionRepository.ExistsByUser | internal/infrastructure/auth/CacheSessionRepository.go:59-71 | True if and only if some token of the user is live |
| CacheKeys.FieldMatch | internal/application/cache/key/keys.go:21-87 | A printed field between colons is matched by an equal field only |
| CacheKeys.UnderTag | internal/application/cache/key/keys.go:37-43 | For all names, colons or not: exactly the date lists whose own name, colon and rest begin with the name and its colon are under a tag's prefix |
| CacheKeys.UnderRankedTag | internal/application/cache/key/keys.go:73-87 | The same for ranked tag lists |
| CacheEntries.SameKeyIff | internal/application/cache/key/keys.go:7-111 | Two queries whose sorts, windows and cursors hold no colon have the same key if and only if they are the same query, so no page, order or list is answered with another; only the search key without a sort, which no reader prints, has a twin |
| CacheEntries.SharedSearchIff | internal/application/service/post/query_handler.go:286-292 | A search looks its key up before it reads its cursor: two searches share a key if and only if they are the same or the cursor of the one holds the rest of the key of the other, which takes a colon in it |
| CacheEntries.SearchesCanShare | internal/application/service/post/query_handler.go:286-292 | Such pairs exist for all sorts, windows and limits |
| Cursors.ReadableHoldsNoColon | internal/application/service/post/feed_cursor.go:16-24 | No cursor that is blank or that any decoder reads holds a colon |
| SharedCache.EventsSpareSessions | internal/application/event/cache_invalidation_handler.go:23-95 | No event removes a session from the cache that holds both |
| SharedCache.AnswersAreNoSessions | internal/infrastructure/auth/CacheSessionRepository.go:106-112 | No query has the key of a session, and ending all sessions of a user removes no cached answer |
| TagKeys.SparedIff | internal/application/cache/key/keys.go:37-87 | For all 64-bit limits and ids and all sorts, windows and cursors, no list of one tag is under a prefix of another if and only if the other does not reach it: it is not the same name, does not begin it before a colon, and does not extend it by a colon and the beginning of what a key prints there |
| Invalidation.Coverage | internal/application/event/cache_invalidation_handler.go:39-95 | Every answer an event is about is dropped, for all limits, cursors, sorts, windows and texts |
| Invalidation.DropsExactly | internal/application/event/cache_invalidation_handler.go:39-95 | For every event and every query, whatever the names hold: dropped are the answers the event is about and the tag lists under a colliding name, and no others |
| Invalidation.Survival | internal/application/event/cache_invalidation_handler.go:39-95 | With colon-free tag names nothing else is dropped: other boards, posts, tags and targets keep their answers |
| Invalidation.TagSparedIff | internal/application/event/cache_invalidation_handler.go:56-72 | An event leaves every list of a tag alone, for all limits, ids, sorts, windows and cursors, if and only if none of its names reaches that tag |
| Invalidation.ColonReachesAnotherTag | internal/application/cache/key/keys.go:37-43 | Names reach each other both ways: an event of tag go drops the lists of a tag go:x, which it is not about, and one of tag go:limit:5 those of go cut to five |
| Invalidation.AdminBoardListStays | internal/application/event/cache_invalidation_handler.go:39-54 | No event ever reaches the administrators' board lists |
| Invalidation.CacheInvalidationHandler.Handle | internal/application/event/cache_invalidation_handler.go:23-37 | Handling an event removes exactly the entries described above from the cache: none it is about is left, and all others but the tag lists under a colliding name are unchanged |
| EditInvalidation.EditAndInvalidate | internal/application/service/post/command_handler.go:192-253 | After an edit and its event no answer that may show the post is cached, under its old tags or its new; every other answer is still there unchanged, but for tag lists with which an old or new name collides |
| EditInvalidation.DeleteAndInvalidate | internal/application/service/post/command_handler.go:255-306 | After a delete and its event also the comment list and every reaction list of the post and its comments are gone; every other answer is still there unchanged, but for tag lists with which one of its names collides |
| Embeds.ExtractAttachmentRefs | internal/application/service/post/attachment_coordinator.go:99-121 | Extraction lists every referenced id once, in order of first appearance |
| Embeds.RefsIff | internal/application/service/post/attachment_coordinator.go:99-121 | The ids read from a text are exactly those, of hexadecimal digits and dashes, of the picture links in it: scanning without overlap misses none and adds none |
| Embeds.FirstsInOrder | internal/application/service/post/attachment_coordinator.go:99-121 | An id listed earlier appears before any appearance of one listed later |
| Embeds.IdsAreHex | internal/application/service/post/attachment_coordinator.go:14-14 | Ids of hexadecimal digits in either case and dashes are read back, and no other character is ever read |
| Embeds.EmbedSaysName | internal/application/service/attachment/handlers.go:535-550 | The embed is a picture link whose text, unescaped, is the trimmed name with line breaks as blanks, or attachment for a blank name |
| Embeds.EmbedIsFound | internal/application/service/attachment/handlers.go:432-434 | The printed embed of a name without ] is read back wherever it is pasted in any text |
| Embeds.EmbedIsLost | internal/application/service/attachment/handlers.go:535-550 | A name with ] prints an embed in which no id is found |
| Embeds.EmbedRoundTripIff | internal/application/service/attachment/handlers.go:432-434 | The embed is read back at every place in every text if and only if the trimmed name holds no ] |
| AttachmentCoordinator.ValidateAttachmentRefs | internal/application/service/post/attachment_coordinator.go:38-49 | A text is accepted only if every id it embeds is a row of the post not pending delete; InvalidInput only if some id is not |
| AttachmentCoordinator.SyncPostAttachmentOrphans | internal/application/service/post/attachment_coordinator.go:55-75 | Exactly the post's rows are marked, referenced if embedded and orphaned if not, a new orphan at a time of the call and an older one keeping its time |
| AttachmentCoordinator.OrphanPostAttachments | internal/application/service/post/attachment_coordinator.go:81-93 | All rows of the post become orphans, and no other row changes |
| AttachmentCoordinator.SyncBacks | internal/application/service/post/attachment_coordinator.go:55-75 | After synchronising, what the text embeds is neither orphaned nor pending |
| AttachmentCoordinator.SyncSpares | internal/application/service/post/attachment_coordinator.go:55-75 | Synchronising one post leaves what other posts embed backed |
| AttachmentCommands.CreatePostAttachment | internal/application/service/attachment/handlers.go:200-258 | One transaction adds one row, orphaned at a time of the call, and its event, or nothing; the tables stay sound, and a deleted or unknown post is refused |
| AttachmentCommands.DeletePostAttachment | internal/application/service/attachment/handlers.go:320-371 | A row the post's text embeds is refused; otherwise the row becomes pending at a time of the call and its event is written, or nothing changes |
| AttachmentCommands.DirectCreateIff | internal/application/service/attachment/handlers.go:200-258 | Registering a row by a caller's storage key keeps rows and files in step if and only if the file is stored and the key is new |
| AttachmentCommands.StaleMarkIff | internal/application/service/attachment/handlers.go:401-413 | A cleanup mark written from an earlier copy keeps embeds backed if and only if no reachable post embeds the file by then |
| AttachmentCommands.StaleMarkAfterEdit | internal/application/service/attachment/handlers.go:401-413 | The failing state is reached: when an edit embeds the file of a candidate after it was selected, the tables are sound and the mark written from the copy takes the row away from under the text |
| AttachmentCommands.DeadIsUnembedded | internal/application/service/attachment/handlers.go:388-422 | In sound tables an orphaned or pending row is embedded in no reachable post |
| AttachmentCommands.SelectCleanupCandidates | internal/infrastructure/persistence/sqlite/attachment_repository.go:82-109 | The oldest rows whose grace has run out, at most limit, oldest first; every eligible row left out is younger than all chosen |
| AttachmentCommands.EligibleIff | internal/infrastructure/persistence/sqlite/attachment_repository.go:190-206 | A pending row is a candidate from its pending time on, another orphan from its orphan time on, a live row never |
| AttachmentCommands.GraceProtects | internal/application/service/attachment/handlers.go:388-422 | A row without a mark from before the cutoff survives a pass as it is, and its file with it |
| AttachmentCommands.FreshSurvives | internal/application/service/attachment/handlers.go:388-422 | A file just uploaded, or one that was live until this command, survives every pass whose cutoff lies before the command |
| AttachmentCommands.AttachmentService.UploadPostAttachment | internal/application/service/attachment/handlers.go:260-318 | For every pattern of failures, and at every step on the way, each row that is not pending has its file; the new row is orphaned at a time of the call; without a row the file is taken back |
| AttachmentCommands.AttachmentService.CleanupAttachments | internal/application/service/attachment/handlers.go:388-422 | At every step, also of a pass that fails, each row that is not pending has its file; only eligible rows and their files go, as many as counted, and a row left half done is as it was or pending since the cutoff, and stays a candidate |
| TagCoordinator.NormalizeTags | internal/application/service/post/tag_coordinator.go:137-159 | Accepted if and only if there are at most 10 tags, none blank or over 30 bytes; the result is the set of normal forms in dictionary order, each once |
| TagCoordinator.SameFormIff | internal/application/service/post/tag_coordinator.go:137-159 | Two tags have one normal form if and only if they are equal but for case and white space around them; a normal form is the form of itself |
| TagCoordinator.Utf8LengthCounts | internal/application/service/post/tag_coordinator.go:137-159 | The length compared with 30 counts bytes: one a character, and one more for each bound of UTF-8 it reaches |
| TagCoordinator.UnionTagNames | internal/application/service/post/tag_coordinator.go:165-180 | The nonblank names of either list in dictionary order, each once |
| TagCoordinator.GetOrCreateTagID | internal/application/service/post/tag_coordinator.go:122-135 | The tag of that name, found or made; names stay unique and known tags keep theirs |
| TagCoordinator.UpsertPostTags | internal/application/service/post/tag_coordinator.go:105-116 | The names become active tags of the post besides those it had; other posts' relations are unchanged |
| TagCoordinator.SyncPostTags | internal/application/service/post/tag_coordinator.go:72-99 | Afterwards the post's active tags are exactly the given names and other posts' relations are unchanged |
| TagCoordinator.OthersKeepTags | internal/application/service/post/tag_coordinator.go:72-99 | The active tags of every other post are the same before and after |
| DeletionWorkflow.DeletePostCommentsInBatches | internal/application/service/post/deletion_workflow.go:47-73 | Paging by id over the set it empties, the loop ends and returns every active comment of the post exactly once in descending order; none is left active, their reactions are gone, nothing else changed |
| DeletionWorkflow.PageExtends | internal/application/service/post/deletion_workflow.go:52-72 | A further page extends the list of newest comments without gap or repeat, and a short page completes it |
| DeletionWorkflow.DeletePostArtifacts | internal/application/service/post/deletion_workflow.go:29-41 | Comments, their reactions and the post's reactions are gone and its files are orphans; other posts are untouched |
| PostCommands.CreatePost | internal/application/service/post/command_handler.go:56-136 | A post with exactly the normal forms of its tags, announced only when published, or nothing; text with embeds is refused |
| PostCommands.PublishPost | internal/application/service/post/command_handler.go:138-190 | Published with its files synchronised and one event naming its tags, or nothing |
| PostCommands.UpdatePost | internal/application/service/post/command_handler.go:192-253 | New text, exactly the new tags, files following the text, one event naming old and new tags, or nothing; other posts keep their tags |
| PostCommands.DeletePost | internal/application/service/post/command_handler.go:255-306 | The post, its comments and all reactions on either are gone, and the event lists exactly the deleted comments, or nothing changes |
| PostCommands.EditedStaysSound | internal/application/service/post/command_handler.go:192-253 | An edit keeps every promise of the tables |
| PostCommands.RemovedStaysSound | internal/application/service/post/command_handler.go:255-306 | A delete keeps every promise of the tables; in particular replaying the longer log gives the smaller reaction table |
| PostCommands.RemovedTags | internal/application/service/post/command_handler.go:289-297 | A deleted post has no active tags and takes none from another post |
| PostCommands.RemovedMeans | internal/application/service/post/deletion_workflow.go:29-73 | A delete field by field: the comments of the post are inactive and no other changed, the reactions on it and on its comments are gone and no other, and the event lists exactly the comments that were active |
| ReactionCommands.SetReaction | internal/application/service/reaction/service.go:167-195 | For a published post or an active comment on one: one entry changes, told by one event that names that post, none when nothing changes; true exactly for a new entry; on error nothing changes |
| ReactionCommands.DeleteReaction | internal/application/service/reaction/service.go:197-226 | The entry goes, told by one event that names its kind, none when there was no entry; on error nothing changes |
| ReactionCommands.ReactedReplays | internal/application/service/reaction/service.go:240-271 | After a change of a reaction the log still replays to the table |
| CommentCommands.CreateComment | internal/application/service/comment/command_handler.go:31-117 | A new active comment on a published post, under an active top-level comment of the same post or none, with its event, or nothing; it succeeds on a reliable store exactly under these conditions |
| CommentCommands.DeleteComment | internal/application/service/comment/command_handler.go:160-197 | The comment becomes inactive and loses its reactions, told by one event, or nothing changes |
| CommentCommands.UncommentedStaysSound | internal/application/service/comment/command_handler.go:189-195 | Deleting a comment keeps every promise of the tables, the replay of the log included |
| CommentCommands.UncommentedMeans | internal/application/service/comment/command_handler.go:189-195 | Deleting a comment, field by field: it alone becomes inactive and the reactions on it alone go |
| ForumRun.AnyRun | internal/application/service/reaction/service.go:167-226 | From empty tables, after any run of post, comment, reaction, upload, delete and cleanup commands with any arguments and failures: the log replays to the reaction table, no reaction or active comment hangs on something gone, replies are one level deep, tag names are unique, each embed of a reachable post names a live row of that post, and each row not pending has its file |
| ForumRun.AnyTableRun | internal/application/service/attachment/handlers.go:200-258 | With rows also registered directly under any storage key a caller names, every promise of the tables still holds after any run; only that of the files needs the condition of DirectCreateIff |
| ForumRun.GraceRun | internal/application/service/attachment/handlers.go:388-422 | Over any run of commands and cleanups whose cutoffs lie before a moment, rows that carry no mark from before that moment, and their files, are still there |
| Account.AccountService.UpgradeGuestAccount | internal/application/service/account/service.go:125-192 | For every pattern of failures: success, under exactly the stated condition, with the old sessions minus the current plus the new, and the row holding the trimmed name and address and the new password hash, no longer a guest, unverified, its status unchanged; otherwise sessions and user row as before unless a compensating call failed, and exactly what then remains |
| Account.AccountService.ApplyGuestUpgrade | internal/application/service/account/service.go:415-454 | Succeeds if and only if no call fails, the user is an existing guest not deleted, and no other row has the name or address; commits the row field by field, one fresh token in place of older ones with its expiry, and one mail request, or nothing |
| Account.AccountService.RestoreUserState | internal/application/service/account/service.go:456-475 | Puts the original row back, or changes nothing when it fails |
| Account.AccountService.ConfirmPasswordReset | internal/application/service/account/service.go:328-413 | For every pattern of failures: the new password hash stored, an unconsumed and unexpired token consumed, and no sessions of the user; or an error with sessions untouched and both rows the originals unless the restore failed too |
| Account.AccountService.RestorePasswordResetState | internal/application/service/account/service.go:477-501 | Puts both originals back or neither |
| Account.AccountService.IssueEmailVerificationToken | internal/application/service/account/service.go:522-548 | A user without an address, or with a verified one, gets no token and nothing changes; otherwise the user's older tokens are gone, other users' stay, and the new one is stored consumed, undelivered and expiring its lifetime after a time of the call |
| MailTokens.StepKeepsInv | internal/application/event/mail_delivery_handler.go:85-112 | Every single repository call of issuing, delivering, redelivering, invalidating, purging, confirming and restoring keeps the invariant, whichever calls are in flight |
| MailTokens.UsableWasDelivered | internal/application/event/mail_delivery_handler.go:166-180 | Along every interleaving from the start, a token that is not consumed has a recorded delivery time |
| MailTokens.DeliveryIsNeverCleared | internal/application/event/mail_delivery_handler.go:85-112 | No call takes a delivery time off a row that is there before and after it |
| MailTokens.RecordedStaysDelivered | internal/application/event/mail_delivery_handler.go:85-112 | Along every run of calls, deletions and late writes included, a token whose delivery was once recorded never again has a row without a delivery time |
| MailTokens.ConfirmedIsUsedUp | internal/application/service/account/service.go:328-413 | A confirmation takes an unconsumed, unexpired token, and along every run that neither activates nor restores it that token is never unconsumed again |
| MailTokens.ActivatesIff | internal/application/event/mail_delivery_handler.go:106-112 | A run goes on to activate if and only if its second look finds the row, consumed and not yet expired |
| MailTokens.IssuedIsOnlyOne | internal/application/service/account/service.go:522-548 | Issuing leaves the user one row, the new one, consumed and undelivered; other users keep theirs |
| MailTokens.SendsIff | internal/application/event/mail_delivery_handler.go:89-93 | A run mails if and only if its first look finds no row or no delivery time; once a delivery is recorded, if and only if the row is gone |
| MailTokens.NoMailWhileRowStays | internal/application/event/mail_delivery_handler.go:89-105 | Along every continuation in which the row stays, a recorded delivery with nobody halfway through sending is never followed by another mail for that token |
| MailTokens.MailsAgainAfterInvalidation | internal/application/event/mail_delivery_handler.go:93-97 | Without the row the promise fails: after an invalidation deletes it, a redelivered request is mailed once more |
| MailTokens.DeliveryMakesUsable | internal/application/event/mail_delivery_handler.go:85-112 | One undisturbed delivery of a fresh token sends one mail, records the delivery and makes the token usable until it expires |
| MailTokens.MailDeliveryHandler.SendTokenMail | internal/application/event/mail_delivery_handler.go:85-112 | With anybody else active between any two of its calls, a run mails exactly when its first look found no row or no delivery time; a mail for a row is recorded, a run that ends well has looked again, and the calls made so far form an interleaving from the start |
| GuestLocks.CallsRefine | internal/application/service/guestcleanup/service.go:64-123 | Lock, session check, commit and unlock as separate calls, with sign-ins and upgrades shut out by the lock and everybody else in between: every interleaving of them is a run of the steps below with the same world |
| GuestLocks.CommitCleansOnlyUnused | internal/application/service/guestcleanup/service.go:64-123 | Call by call, whoever a commit deletes is at that moment a known guest without session, published post, active comment, reaction, report or completed upgrade, although the commit does not look at the sessions again |
| GuestCleanup.CleanedWasUnused | internal/application/service/guestcleanup/service.go:64-123 | Along every interleaving, whoever is cleaned had a moment, just before, as a known guest without session, content or upgrade |
| GuestCleanup.UpgradeAsSteps | internal/application/service/account/service.go:125-192 | A guest upgrade, for every pattern of failures and compensations, is a run of these steps: nothing, a sign-in, an upgrade, or a sign-in, an upgrade and a sign-out |
| GuestCleanup.UpgradeIsSafe | internal/application/service/guestcleanup/service.go:64-123 | Along every interleaving a completed upgrade is never cleaned later, and a cleaned guest is never upgraded |
| GuestCleanup.StepKeepsInv | internal/application/service/guestcleanup/service.go:64-123 | Every step keeps upgraded and cleaned users apart, and the cleaned deleted and without content |
| GuestCleanup.GuestCleanupService.CleanupGuest | internal/application/service/guestcleanup/service.go:64-123 | The checks in turn delete the user exactly when it is a guest not deleted, without session, post, comment, reaction and report; the row then keeps nothing but the name deleted-user and its id, and an error changes nothing |
| GuestCleanup.GuestCleanupService.CleanupGuests | internal/application/service/guestcleanup/service.go:35-62 | With others active between the users, the count is the number of users this pass newly deleted, also when it stops early; none of them was upgraded or cleaned before, and a pass that ends well gave every chosen guest its turn |

## Left out

- HTTP handlers, rendering, link previews, configuration, SQL, the outbox relay, notifications and mentions, reports, suspension, roles and the search and ranking indexes themselves: input and output, or properties seen from one branch. User, role and ownership checks appear as one check that may refuse.
- Password hashing, token signing, SHA-256, random drawing, image optimisation and MIME sniffing: their results are parameters.
- Text.ToLower: lower-cases ASCII letters only; case mapping of other scripts and Unicode normalisation are not modelled.
- PostLists.GetFeed: does not model the cache around the loader or the conversion of posts to view models; the same holds for the other list requests. A total is read from the same tables as its page.
- ListTotals.FeedTotalIff: takes for granted that a ranking holds each post once, which the ranking index promises and is not modelled here; `ListTotals.RelevanceTotalIff` does the same of the answers of a search.
- ListTotals.FeedWalkTotalIff: with more than 1000 visible boards the total leaves out the boards beyond, which the walk may show; `ListTotals.FeedTotalIff` covers that case for the boards counted.
- PostStore.ScoreOrder: orders a cursor forged with a not-a-number score by its bit pattern; what the repository does with such a cursor is not modelled. No list prints one, and the walks make no claim about it.
- WebPagination.LoadSequentialPage: takes the fetch as a function, so all pages are read from one snapshot.
- Cache.InMemoryCache.GetOrSetWithTTL: one caller at a time; concurrent loads, and a loader that stores a value read before an invalidation, are not modelled, and the code does not prevent the latter.
- Invalidation.CacheInvalidationHandler.Handle: assumes the in-memory cache, whose deletions never fail; with another cache a failed deletion is logged and skipped. The board lists of administrators have no coverage, since no event deletes them.
- EditInvalidation.EditAndInvalidate: the event is handled right after the edit; the delay of the outbox relay is not modelled.
- Posts, comments and attachments are found by their numeric ids; the one-to-one map from UUIDs is not modelled. Titles and authors are not searched; comment texts are left out, and so is editing a comment, which changes nothing else.
- Entities are values: the program changes a private copy and writes it back, and only the write reaches a table.
- AttachmentCommands.AttachmentService.CleanupAttachments: a pass is atomic with respect to post edits; `AttachmentCommands.StaleMarkIff` says what happens otherwise.
- AttachmentCommands.AttachmentService.UploadPostAttachment: the content is given by its size and whether its type was accepted.
- Account.AccountService.UpgradeGuestAccount: sessions do not expire during the call (`Sessions` models expiry), and the calls inside one transaction share one fault.
- Account.AccountService.ConfirmPasswordReset: sessions do not expire during the call, and the calls inside one transaction share one fault.
- MailTokens.UsableWasDelivered: nothing is claimed about how many tokens are usable; `MailTokens.ConfirmedIsUsedUp` says how long a confirmed one is used up, since activation clears a consumption without asking why it was set.
- ShownPosts.RankingOrder: restates field by field what the ranking index promises of its order; how scores are computed is not modelled.
- ForumRun.GraceRun: the time given to a cleanup is a parameter of the pass; that it is the present time is left to the caller.
- MailTokens.MailDeliveryHandler.SendTokenMail: stands for both mail kinds, which are line for line alike; the capture file is left out.
- GuestLocks.CallsRefine: the user is read and its content checked at the commit, as one transaction; only the session check stands apart from it.
- GuestCleanup.GuestCleanupService.CleanupGuests: the grace periods only decide the early exit; which guests the repository proposes is left open, since each is checked again under its lock.
