/** The loops that read batches from an unfiltered list until a page of visible posts is full. */
module PostQuery {
  import opened Text
  import opened Lists
  import opened Cursors
  import opened FilteredWalk
  import opened PostStore

  const MAX_PAGE_LIMIT := 1000

  predicate IsLimit(limit: int) { 1 <= limit <= MAX_PAGE_LIMIT }

  /** One page as the use case returns it; posts are named by id. */
  datatype PostList = PostList(postIDs: seq<int>, limit: int, cursor: string, hasMore: bool, nextCursor: Option<string>)

  function PostIDs(posts: seq<Post>): seq<int> { seq(|posts|, i requires 0 <= i < |posts| => posts[i].id) }

  function FeedIDs(rows: seq<FeedResult>): seq<int> { seq(|rows|, i requires 0 <= i < |rows| => rows[i].postID) }

  function SearchIDs(rows: seq<SearchResult>): seq<int> { seq(|rows|, i requires 0 <= i < |rows| => rows[i].post.id) }

  function FeedCursorOf(sort: string, window: string, r: FeedResult): FeedCursor {
    FeedCursor(sort, window, r.scoreBits, r.publishedAt, r.postID)
  }

  function SearchCursorOf(r: SearchResult): SearchCursor { SearchCursor(RELEVANCE, "", r.scoreBits, r.post.id) }

  lemma FeedCursorKey(sort: string, window: string, r: FeedResult)
    ensures FeedFrom(Some(FeedCursorOf(sort, window, r))) == Some(FeedKey(sort)(r))
  {
  }

  /** What the ranked page after a cursor should be: cut the filtered remainder and print the last row. */
  ghost function FeedPage(db: Store, sort: string, window: string, limit: nat, from: Option<Key>, text: string, wanted: Post -> bool): PostList
    requires Valid(db) && IsField(sort) && IsField(window) && limit >= 1
  {
    var page := PageOf(After(FeedRows(db, sort, window), FeedKey(sort), from), FeedKeep(db, wanted), limit);
    FeedItemsPrint(db, sort, window, limit, from, wanted);
    PostList(FeedIDs(page.items), limit, text, page.hasMore,
             if page.hasMore then Some(EncodeFeed(FeedCursorOf(sort, window, page.items[limit - 1]))) else None)
  }

  ghost function SearchPage(db: Store, query: string, limit: nat, from: Option<Key>, text: string): PostList
    requires Valid(db) && limit >= 1
  {
    var page := PageOf(After(FoundRows(db, query), SearchKey(), from), SearchKeep(db), limit);
    SearchItemsPrint(db, query, limit, from);
    PostList(SearchIDs(page.items), limit, text, page.hasMore,
             if page.hasMore then Some(EncodeSearch(SearchCursorOf(page.items[limit - 1]))) else None)
  }

  ghost function TagPage(db: Store, tagID: int, limit: nat, from: Option<Key>, text: string): PostList
    requires limit >= 1
  {
    var page := PageOf(After(TagRows(db, tagID), PostKey(), from), PostKeep(db), limit);
    PostList(PostIDs(page.items), limit, text, page.hasMore,
             if page.hasMore then Some(EncodeOpaque(page.items[limit - 1].id)) else None)
  }

  lemma AfterMembers<T>(rows: seq<T>, key: T -> Key, from: Option<Key>)
    ensures forall r :: r in After(rows, key, from) ==> r in rows
  {
    match from
    case None =>
    case Some(k) => FilterMembers(rows, BelowKey(key, k));
  }

  /** Rows of a page come from the list behind it. */
  lemma PageItemsAreRows<T>(rows: seq<T>, key: T -> Key, from: Option<Key>, keep: T -> bool, limit: nat)
    ensures forall r :: r in PageOf(After(rows, key, from), keep, limit).items ==> r in rows && keep(r)
  {
    AfterMembers(rows, key, from);
    FilterMembers(After(rows, key, from), keep);
    var kept := Filter(After(rows, key, from), keep);
    assert forall r :: r in Take(kept, limit) ==> r in kept;
  }

  lemma FeedItemsPrint(db: Store, sort: string, window: string, limit: nat, from: Option<Key>, wanted: Post -> bool)
    requires Valid(db) && IsField(sort) && IsField(window)
    ensures
      var items := PageOf(After(FeedRows(db, sort, window), FeedKey(sort), from), FeedKeep(db, wanted), limit).items;
      forall i :: 0 <= i < |items| ==> IsFeedCursor(FeedCursorOf(sort, window, items[i]))
  {
    PageItemsAreRows(FeedRows(db, sort, window), FeedKey(sort), from, FeedKeep(db, wanted), limit);
    FeedRowsValid(db, sort, window);
    var items := PageOf(After(FeedRows(db, sort, window), FeedKey(sort), from), FeedKeep(db, wanted), limit).items;
    forall i | 0 <= i < |items| ensures IsFeedCursor(FeedCursorOf(sort, window, items[i])) {
      assert items[i] in items;
      assert ValidFeedRow(db, items[i]);
    }
  }

  lemma FeedRowsValid(db: Store, sort: string, window: string)
    requires Valid(db)
    ensures forall r :: r in FeedRows(db, sort, window) ==> ValidFeedRow(db, r)
    ensures Descending(FeedRows(db, sort, window), FeedKey(sort))
  {
    if (sort, window) in db.ranked { assert Descending(db.ranked[(sort, window)], FeedKey((sort, window).0)); }
  }

  lemma FoundRowsValid(db: Store, query: string)
    requires Valid(db)
    ensures forall r :: r in FoundRows(db, query) ==> IsScore(r.scoreBits) && IsID(r.post.id)
    ensures Descending(FoundRows(db, query), SearchKey())
  {
  }

  lemma SearchItemsPrint(db: Store, query: string, limit: nat, from: Option<Key>)
    requires Valid(db)
    ensures
      var items := PageOf(After(FoundRows(db, query), SearchKey(), from), SearchKeep(db), limit).items;
      forall i :: 0 <= i < |items| ==> IsSearchCursor(SearchCursorOf(items[i]))
  {
    PageItemsAreRows(FoundRows(db, query), SearchKey(), from, SearchKeep(db), limit);
    FoundRowsValid(db, query);
  }

  function BoardIDs(posts: seq<Post>): set<int> { set p | p in posts :: p.boardID }

  /** The visibility map tells the truth about every board it knows. */
  predicate Agrees(db: Store, vis: map<int, bool>) { forall b :: b in vis ==> vis[b] == BoardVisible(db, b) }

  /** A lookup in the visibility map; an unknown board reads as hidden. */
  predicate Shows(vis: map<int, bool>, boardID: int) { boardID in vis && vis[boardID] }

  /** A repository call on a flaky connection may fail; on a sound one it does not. */
  method CallFails(flaky: bool) returns (fails: bool)
    ensures fails ==> flaky
  {
    fails := false;
    if flaky { fails := *; }
  }

  lemma BoardIDsStep(posts: seq<Post>, n: nat)
    requires n < |posts|
    ensures BoardIDs(posts[..n + 1]) == BoardIDs(posts[..n]) + {posts[n].boardID}
  {
    assert posts[..n + 1] == posts[..n] + [posts[n]];
  }

  /** Posts and rows kept side by side. */
  predicate Match(posts: seq<Post>, rows: seq<FeedResult>) {
    |posts| == |rows| && forall i :: 0 <= i < |rows| ==> posts[i].id == rows[i].postID
  }

  /** Looks up the boards of `posts` not met before, `asked`, each once.  With `flaky`, any repository call may fail. */
  method ResolveBoardVisibility(db: Store, posts: seq<Post>, vis: map<int, bool>, flaky: bool)
    returns (r: Result<map<int, bool>>, ghost asked: seq<int>)
    requires Agrees(db, vis)
    ensures NoDuplicates(asked) && forall b :: b in asked <==> b in BoardIDs(posts) && b !in vis
    ensures r.Ok? ==> Agrees(db, r.value) && r.value.Keys == vis.Keys + BoardIDs(posts)
    ensures r.Err? ==> flaky && r.error == RepositoryFailure
  {
    var toFetch: set<int> := {};
    for i := 0 to |posts|
      invariant toFetch == BoardIDs(posts[..i]) - vis.Keys
    {
      BoardIDsStep(posts, i);
      if posts[i].boardID !in vis { toFetch := toFetch + {posts[i].boardID}; }
    }
    assert posts[..|posts|] == posts;
    asked := [];
    if toFetch == {} {
      forall b | b in BoardIDs(posts) ensures b in vis.Keys { assert b !in vis.Keys ==> b in toFetch; }
      return Ok(vis), asked;
    }
    var uncached := ListOf(toFetch);
    asked := uncached;
    var down := CallFails(flaky);
    if down { return Err(RepositoryFailure), asked; }
    var boards := SelectBoardsByIDs(db, uncached);
    var out := vis;
    for i := 0 to |uncached|
      invariant Agrees(db, out) && out.Keys == vis.Keys + (set b | b in uncached[..i])
    {
      assert uncached[..i + 1] == uncached[..i] + [uncached[i]];
      var b := uncached[i];
      out := out[b := b in boards && !boards[b].hidden];
    }
    assert uncached[..|uncached|] == uncached;
    return Ok(out), asked;
  }

  /** The ids of a batch, each once. */
  method DistinctPostIDs(results: seq<FeedResult>) returns (ids: seq<int>)
    ensures forall id :: id in ids <==> exists i :: 0 <= i < |results| && results[i].postID == id
    ensures forall i, j :: 0 <= i < j < |ids| ==> ids[i] != ids[j]
  {
    ids := [];
    var seen: set<int> := {};
    for n := 0 to |results|
      invariant forall id :: id in seen <==> id in ids
      invariant forall id :: id in ids <==> exists i :: 0 <= i < n && results[i].postID == id
      invariant forall i, j :: 0 <= i < j < |ids| ==> ids[i] != ids[j]
    {
      var id := results[n].postID;
      if id !in seen {
        seen := seen + {id};
        ids := ids + [id];
      }
    }
  }

  /** The published posts of a batch, from the posts found for it. */
  method PublishedPosts(db: Store, results: seq<FeedResult>, postsByID: map<int, Post>) returns (posts: seq<Post>)
    requires forall i :: 0 <= i < |results| ==> (results[i].postID in postsByID <==> Found(db, results[i].postID))
    requires forall id :: id in postsByID ==> id in db.posts && postsByID[id] == db.posts[id]
    ensures forall i :: 0 <= i < |results| && IsPublished(db, results[i].postID) ==> db.posts[results[i].postID] in posts
  {
    posts := [];
    for n := 0 to |results|
      invariant forall i :: 0 <= i < n && IsPublished(db, results[i].postID) ==> db.posts[results[i].postID] in posts
    {
      var id := results[n].postID;
      if id in postsByID && postsByID[id].status == Published { posts := posts + [postsByID[id]]; }
    }
  }

  /** Appends the kept rows of a batch until the page is full; `n` rows were looked at. */
  method AppendKept(db: Store, results: seq<FeedResult>, postsByID: map<int, Post>, vis: map<int, bool>, wanted: Post -> bool,
                    fetchLimit: nat, rows0: seq<FeedResult>, posts0: seq<Post>)
    returns (rows: seq<FeedResult>, posts: seq<Post>, ghost n: nat)
    requires |rows0| < fetchLimit && Match(posts0, rows0)
    requires Valid(db) && Agrees(db, vis)
    requires forall i :: 0 <= i < |results| ==> (results[i].postID in postsByID <==> Found(db, results[i].postID))
    requires forall id :: id in postsByID ==> id in db.posts && postsByID[id] == db.posts[id]
    requires forall i :: 0 <= i < |results| && Found(db, results[i].postID) ==> results[i].boardID in vis
    ensures n <= |results| && rows == rows0 + Filter(results[..n], FeedKeep(db, wanted))
    ensures |rows| <= fetchLimit && (n == |results| || |rows| == fetchLimit)
    ensures Match(posts, rows)
  {
    rows, posts, n := rows0, posts0, 0;
    for i := 0 to |results|
      invariant n == i && |rows| < fetchLimit
      invariant rows == rows0 + Filter(results[..n], FeedKeep(db, wanted))
      invariant Match(posts, rows)
    {
      var result := results[i];
      FilterStep(results, i, FeedKeep(db, wanted));
      n := i + 1;
      if result.postID in postsByID && Shows(vis, result.boardID) && wanted(postsByID[result.postID]) {
        rows := rows + [result];
        posts := posts + [postsByID[result.postID]];
        if |rows| >= fetchLimit { return; }
      }
    }
  }

  /** Both ways to leave a batch loop mean the same: the first `fetchLimit` kept rows are in hand. */
  lemma BatchesFillPage<T>(rest: seq<T>, keep: T -> bool, n: nat, fetchLimit: nat)
    requires n <= |rest| && |Filter(rest[..n], keep)| <= fetchLimit
    requires n == |rest| || |Filter(rest[..n], keep)| == fetchLimit
    ensures Filter(rest[..n], keep) == Take(Filter(rest, keep), fetchLimit)
  {
    FilterCut(rest, n, keep);
    if n == |rest| { assert rest[..n] == rest; }
  }

  lemma PrefixGrows<T>(s: seq<T>, n: nat, m: nat, part: seq<T>)
    requires n <= m <= |s| && part == s[n..m]
    ensures s[..m] == s[..n] + part
  {
  }

  /** One batch moves the scan on: the kept rows so far, and where the next batch starts. */
  lemma BatchDone<T>(all: seq<T>, key: T -> Key, keep: T -> bool, from: Option<Key>, rest: seq<T>, n: nat, m: nat, fetchLimit: nat,
                     results: seq<T>, before: seq<T>, kept: seq<T>)
    requires Descending(all, key) && rest == After(all, key, from)
    requires n <= |rest| && results == Take(rest[n..], fetchLimit) && n <= m <= n + |results|
    requires before == Filter(rest[..n], keep) && kept == before + Filter(results[..m - n], keep)
    ensures m <= |rest| && kept == Filter(rest[..m], keep)
    ensures m == n + |results| > n ==>
      var last := results[|results| - 1]; After(all, key, Some(key(last))) == rest[m..] && last in all
    ensures m == n + |results| < n + fetchLimit ==> m == |rest|
  {
    var k := m - n;
    assert results[..k] == rest[n..m];
    PrefixGrows(rest, n, m, results[..k]);
    FilterConcat(rest[..n], results[..k], keep);
    if k > 0 {
      AfterNth(all, key, from, m);
      assert results[k - 1] == rest[m - 1];
      AfterMembers(all, key, from);
    }
  }

  method LoadRankedPosts(db: Store, sort: string, window: string, limit: int, cursor: Option<FeedCursor>, text: string,
                         wanted: Post -> bool, flaky: bool)
    returns (r: Result<PostList>)
    requires Valid(db) && IsField(sort) && IsField(window)
    requires cursor.Some? ==> cursor.value.sort == sort
    ensures !IsLimit(limit) ==> r == Err(InvalidInput)
    ensures IsLimit(limit) && r.Ok? ==> r.value == FeedPage(db, sort, window, limit, FeedFrom(cursor), text, wanted)
    ensures IsLimit(limit) && r.Err? ==> flaky && r.error == RepositoryFailure
  {
    if !IsLimit(limit) { return Err(InvalidInput); }
    var collected := CollectRanked(db, sort, window, limit + 1, cursor, wanted, flaky);
    if collected.Err? { return Err(collected.error); }
    var (rows, posts) := collected.value;
    r := Ok(CutFeed(db, sort, window, limit, FeedFrom(cursor), text, wanted, rows, posts));
  }

  /** The batch loop: reads on from the cursor until `fetchLimit` rows are kept or the ranking ends. */
  method CollectRanked(db: Store, sort: string, window: string, fetchLimit: nat, cursor: Option<FeedCursor>, wanted: Post -> bool, flaky: bool)
    returns (r: Result<(seq<FeedResult>, seq<Post>)>)
    requires Valid(db) && fetchLimit >= 1 && (cursor.Some? ==> cursor.value.sort == sort)
    ensures r.Ok? ==> r.value.0 == Take(Filter(After(FeedRows(db, sort, window), FeedKey(sort), FeedFrom(cursor)), FeedKeep(db, wanted)), fetchLimit)
    ensures r.Ok? ==> Match(r.value.1, r.value.0)
    ensures r.Err? ==> flaky && r.error == RepositoryFailure
  {
    var current := cursor;
    var rows: seq<FeedResult>, posts: seq<Post>, vis: map<int, bool> := [], [], map[];
    ghost var all, key, keep := FeedRows(db, sort, window), FeedKey(sort), FeedKeep(db, wanted);
    ghost var from, n := FeedFrom(cursor), 0;
    ghost var rest := After(all, key, from);
    FeedRowsValid(db, sort, window);
    while |rows| < fetchLimit
      invariant n <= |rest| && After(all, key, FeedFrom(current)) == rest[n..]
      invariant rows == Filter(rest[..n], keep) && |rows| <= fetchLimit
      invariant Match(posts, rows) && Agrees(db, vis)
      decreases |rest| - n
    {
      var batch;
      ghost var k, before := 0, rows;
      batch, k := NextBatch(db, sort, window, fetchLimit, current, vis, wanted, rows, posts, flaky);
      if batch.Err? { return Err(batch.error); }
      var results := batch.value.results;
      rows, posts, vis := batch.value.rows, batch.value.posts, batch.value.vis;
      ghost var m := n + k;
      BatchDone(all, key, keep, from, rest, n, m, fetchLimit, results, before, rows);
      n := m;
      if |results| == 0 || |rows| >= fetchLimit || |results| < fetchLimit {
        BatchesFillPage(rest, keep, n, fetchLimit);
        return Ok((rows, posts));
      }
      assert k == |results|;
      var last := results[|results| - 1];
      FeedCursorKey(sort, window, last);
      assert After(all, key, Some(key(last))) == rest[n..];
      current := Some(FeedCursorOf(sort, window, last));
    }
    BatchesFillPage(rest, keep, n, fetchLimit);
    return Ok((rows, posts));
  }

  /** A batch read from the ranking, and what the page holds after it. */
  datatype Batch = Batch(results: seq<FeedResult>, rows: seq<FeedResult>, posts: seq<Post>, vis: map<int, bool>)

  /** Reads one batch and appends its kept rows; `k` rows of the batch were looked at. */
  method NextBatch(db: Store, sort: string, window: string, fetchLimit: nat, current: Option<FeedCursor>, vis: map<int, bool>,
                   wanted: Post -> bool, rows: seq<FeedResult>, posts: seq<Post>, flaky: bool)
    returns (r: Result<Batch>, ghost k: nat)
    requires Valid(db) && Agrees(db, vis) && Match(posts, rows) && |rows| < fetchLimit
    ensures r.Ok? ==> r.value.results == ListFeed(db, sort, window, fetchLimit, current) && k <= |r.value.results|
    ensures r.Ok? ==> r.value.rows == rows + Filter(r.value.results[..k], FeedKeep(db, wanted)) && |r.value.rows| <= fetchLimit
    ensures r.Ok? ==> k == |r.value.results| || |r.value.rows| == fetchLimit
    ensures r.Ok? ==> Match(r.value.posts, r.value.rows) && Agrees(db, r.value.vis)
    ensures r.Err? ==> flaky && r.error == RepositoryFailure
  {
    k := 0;
    var down := CallFails(flaky);
    if down { return Err(RepositoryFailure), 0; }
    var results := ListFeed(db, sort, window, fetchLimit, current);
    if |results| == 0 { return Ok(Batch(results, rows, posts, vis)), 0; }
    BatchRowsValid(db, sort, window, fetchLimit, current);
    var prepared := PrepareBatch(db, results, vis, flaky);
    if prepared.Err? { return Err(prepared.error), 0; }
    var rows', posts';
    rows', posts', k := AppendKept(db, results, prepared.value.0, prepared.value.1, wanted, fetchLimit, rows, posts);
    r := Ok(Batch(results, rows', posts', prepared.value.1));
  }

  /** Finds the posts of a batch and the visibility of their boards. */
  method PrepareBatch(db: Store, results: seq<FeedResult>, vis: map<int, bool>, flaky: bool)
    returns (r: Result<(map<int, Post>, map<int, bool>)>)
    requires Valid(db) && Agrees(db, vis)
    requires forall r :: r in results ==> ValidFeedRow(db, r)
    ensures r.Ok? ==> forall i :: 0 <= i < |results| ==> (results[i].postID in r.value.0 <==> Found(db, results[i].postID))
    ensures r.Ok? ==> forall id :: id in r.value.0 ==> id in db.posts && r.value.0[id] == db.posts[id]
    ensures r.Ok? ==> Agrees(db, r.value.1)
    ensures r.Ok? ==> forall i :: 0 <= i < |results| && Found(db, results[i].postID) ==> results[i].boardID in r.value.1
    ensures r.Err? ==> flaky && r.error == RepositoryFailure
  {
    var ids := DistinctPostIDs(results);
    var down := CallFails(flaky);
    if down { return Err(RepositoryFailure); }
    var postsByID := SelectPostsByIDs(db, ids);
    var published := PublishedPosts(db, results, postsByID);
    ghost var asked;
    var resolved;
    resolved, asked := ResolveBoardVisibility(db, published, vis, flaky);
    if resolved.Err? { return Err(resolved.error); }
    forall i | 0 <= i < |results| && Found(db, results[i].postID) ensures results[i].boardID in resolved.value {
      assert ValidFeedRow(db, results[i]);
      assert db.posts[results[i].postID] in published;
    }
    return Ok((postsByID, resolved.value));
  }

  /** Rows of a batch are valid rows of the ranking. */
  lemma BatchRowsValid(db: Store, sort: string, window: string, limit: nat, cursor: Option<FeedCursor>)
    requires Valid(db)
    ensures forall r :: r in ListFeed(db, sort, window, limit, cursor) ==> ValidFeedRow(db, r)
  {
    FeedRowsValid(db, sort, window);
    AfterMembers(FeedRows(db, sort, window), FeedKey(sort), FeedFrom(cursor));
  }

  /** Cuts the extra row off and prints the cursor of the last one kept. */
  function CutFeed(db: Store, sort: string, window: string, limit: nat, ghost from: Option<Key>, text: string, ghost wanted: Post -> bool,
                   rows: seq<FeedResult>, posts: seq<Post>): (list: PostList)
    requires Valid(db) && IsField(sort) && IsField(window) && limit >= 1
    requires rows == Take(Filter(After(FeedRows(db, sort, window), FeedKey(sort), from), FeedKeep(db, wanted)), limit + 1)
    requires Match(posts, rows)
    ensures list == FeedPage(db, sort, window, limit, from, text, wanted)
  {
    FeedItemsPrint(db, sort, window, limit, from, wanted);
    if |rows| > limit then
      assert PostIDs(posts[..limit]) == FeedIDs(rows[..limit]);
      PostList(PostIDs(posts[..limit]), limit, text, true, Some(EncodeFeed(FeedCursorOf(sort, window, rows[limit - 1]))))
    else
      assert PostIDs(posts) == FeedIDs(rows);
      PostList(PostIDs(posts), limit, text, false, None)
  }
}
