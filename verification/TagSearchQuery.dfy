/** Lists by tag and by search relevance, the sets behind their totals, and the counting of visible posts. */
module TagSearchQuery {
  import opened Text
  import opened Lists
  import opened Cursors
  import opened FilteredWalk
  import opened PostStore
  import opened PostQuery

  /** Appends the items on visible boards until the page is full; `n` items were looked at. */
  method AppendVisible<T>(db: Store, items: seq<T>, boardOf: T -> int, ghost keep: T -> bool, vis: map<int, bool>, fetchLimit: nat, kept0: seq<T>)
    returns (kept: seq<T>, ghost n: nat)
    requires |kept0| < fetchLimit && Agrees(db, vis)
    requires forall i :: 0 <= i < |items| ==> boardOf(items[i]) in vis && (keep(items[i]) <==> BoardVisible(db, boardOf(items[i])))
    ensures n <= |items| && kept == kept0 + Filter(items[..n], keep)
    ensures |kept| <= fetchLimit && (n == |items| || |kept| == fetchLimit)
  {
    kept, n := kept0, 0;
    for i := 0 to |items|
      invariant n == i && |kept| < fetchLimit
      invariant kept == kept0 + Filter(items[..n], keep)
    {
      FilterStep(items, i, keep);
      n := i + 1;
      if Shows(vis, boardOf(items[i])) {
        kept := kept + [items[i]];
        if |kept| >= fetchLimit { return; }
      }
    }
  }

  /** The batch loop over the published posts of a tag. */
  method CollectTagged(db: Store, tagID: int, fetchLimit: nat, lastID: int, flaky: bool) returns (r: Result<seq<Post>>)
    requires Valid(db) && fetchLimit >= 1
    ensures r.Ok? ==> r.value == Take(Filter(After(TagRows(db, tagID), PostKey(), IdFrom(lastID)), PostKeep(db)), fetchLimit)
    ensures r.Err? ==> flaky && r.error == RepositoryFailure
  {
    var cursor := lastID;
    var posts: seq<Post>, vis: map<int, bool> := [], map[];
    ghost var all, key, keep := TagRows(db, tagID), PostKey(), PostKeep(db);
    ghost var from, n := IdFrom(lastID), 0;
    ghost var rest := After(all, key, from);
    TagRowsValid(db, tagID);
    while |posts| < fetchLimit
      invariant n <= |rest| && After(all, key, IdFrom(cursor)) == rest[n..]
      invariant posts == Filter(rest[..n], keep) && |posts| <= fetchLimit
      invariant Agrees(db, vis)
      decreases |rest| - n
    {
      var down := CallFails(flaky);
      if down { return Err(RepositoryFailure); }
      var batch := SelectPublishedPostsByTag(db, tagID, fetchLimit, cursor);
      if |batch| == 0 { BatchesFillPage(rest, keep, n, fetchLimit); return Ok(posts); }
      var resolved := ResolveTagged(db, batch, vis, flaky);
      if resolved.Err? { return Err(resolved.error); }
      vis := resolved.value;
      ghost var k, before := 0, posts;
      posts, k := AppendVisible(db, batch, (p: Post) => p.boardID, keep, vis, fetchLimit, posts);
      ghost var m := n + k;
      BatchDone(all, key, keep, from, rest, n, m, fetchLimit, batch, before, posts);
      n := m;
      if |posts| >= fetchLimit || |batch| < fetchLimit {
        BatchesFillPage(rest, keep, n, fetchLimit);
        return Ok(posts);
      }
      assert k == |batch|;
      var last := batch[|batch| - 1];
      assert IdFrom(last.id) == Some(key(last));
      cursor := last.id;
    }
    BatchesFillPage(rest, keep, n, fetchLimit);
    return Ok(posts);
  }

  /** Looks up the boards of a batch of posts. */
  method ResolveTagged(db: Store, posts: seq<Post>, vis: map<int, bool>, flaky: bool) returns (r: Result<map<int, bool>>)
    requires Agrees(db, vis)
    ensures r.Ok? ==> Agrees(db, r.value) && forall i :: 0 <= i < |posts| ==> posts[i].boardID in r.value
    ensures r.Err? ==> flaky && r.error == RepositoryFailure
  {
    ghost var asked;
    r, asked := ResolveBoardVisibility(db, posts, vis, flaky);
    forall i | 0 <= i < |posts| && r.Ok? ensures posts[i].boardID in r.value {
      assert posts[i].boardID in BoardIDs(posts);
    }
  }

  lemma TagRowsValid(db: Store, tagID: int)
    requires Valid(db)
    ensures Descending(TagRows(db, tagID), PostKey())
    ensures forall p :: p in TagRows(db, tagID) ==> IsID(p.id) && IsPublished(db, p.id) && p == db.posts[p.id]
  {
    PublishedDescends(db, TagIDs(db, tagID));
  }

  /** Cuts the extra post off and prints the id of the last one kept. */
  function CutTagged(db: Store, ghost tagID: int, limit: nat, ghost from: Option<Key>, text: string, posts: seq<Post>): (list: PostList)
    requires limit >= 1
    requires posts == Take(Filter(After(TagRows(db, tagID), PostKey(), from), PostKeep(db)), limit + 1)
    ensures list == TagPage(db, tagID, limit, from, text)
  {
    CutOverfetch(Filter(After(TagRows(db, tagID), PostKey(), from), PostKeep(db)), limit, posts);
    if |posts| > limit then PostList(PostIDs(posts[..limit]), limit, text, true, Some(EncodeOpaque(posts[limit - 1].id)))
    else PostList(PostIDs(posts), limit, text, false, None)
  }

  method LoadPublishedPostsByTag(db: Store, name: string, limit: int, lastID: int, text: string, flaky: bool) returns (r: Result<PostList>)
    requires Valid(db)
    ensures r.Ok? ==> IsLimit(limit) && name in db.tagIDs && r.value == TagPage(db, db.tagIDs[name], limit, IdFrom(lastID), text)
    ensures r.Err? ==> !IsLimit(limit) || name !in db.tagIDs || flaky
  {
    var down := CallFails(flaky);
    if down { return Err(RepositoryFailure); }
    if name !in db.tagIDs { return Err(NotFound); }
    if !IsLimit(limit) { return Err(InvalidInput); }
    var collected := CollectTagged(db, db.tagIDs[name], limit + 1, lastID, flaky);
    if collected.Err? { return Err(collected.error); }
    return Ok(CutTagged(db, db.tagIDs[name], limit, IdFrom(lastID), text, collected.value));
  }

  /** The posts of search rows, in order. */
  function PostsOf(rows: seq<SearchResult>): seq<Post> { seq(|rows|, i requires 0 <= i < |rows| => rows[i].post) }

  lemma SearchCursorKey(r: SearchResult)
    ensures SearchFrom(Some(SearchCursorOf(r))) == Some(SearchKey()(r))
  {
  }

  /** The batch loop over the answers of the search index. */
  method CollectFound(db: Store, query: string, fetchLimit: nat, cursor: Option<SearchCursor>, flaky: bool) returns (r: Result<seq<SearchResult>>)
    requires Valid(db) && fetchLimit >= 1
    ensures r.Ok? ==> r.value == Take(Filter(After(FoundRows(db, query), SearchKey(), SearchFrom(cursor)), SearchKeep(db)), fetchLimit)
    ensures r.Err? ==> flaky && r.error == RepositoryFailure
  {
    var current := cursor;
    var rows: seq<SearchResult>, vis: map<int, bool> := [], map[];
    ghost var all, key, keep := FoundRows(db, query), SearchKey(), SearchKeep(db);
    ghost var from, n := SearchFrom(cursor), 0;
    ghost var rest := After(all, key, from);
    FoundRowsValid(db, query);
    while |rows| < fetchLimit
      invariant n <= |rest| && After(all, key, SearchFrom(current)) == rest[n..]
      invariant rows == Filter(rest[..n], keep) && |rows| <= fetchLimit
      invariant Agrees(db, vis)
      decreases |rest| - n
    {
      var down := CallFails(flaky);
      if down { return Err(RepositoryFailure); }
      var batch := SearchPublishedPosts(db, query, fetchLimit, current);
      if |batch| == 0 { BatchesFillPage(rest, keep, n, fetchLimit); return Ok(rows); }
      var resolved := ResolveFound(db, batch, vis, flaky);
      if resolved.Err? { return Err(resolved.error); }
      vis := resolved.value;
      ghost var k, before := 0, rows;
      rows, k := AppendVisible(db, batch, (r: SearchResult) => r.post.boardID, keep, vis, fetchLimit, rows);
      ghost var m := n + k;
      BatchDone(all, key, keep, from, rest, n, m, fetchLimit, batch, before, rows);
      n := m;
      if |rows| >= fetchLimit || |batch| < fetchLimit {
        BatchesFillPage(rest, keep, n, fetchLimit);
        return Ok(rows);
      }
      assert k == |batch|;
      var last := batch[|batch| - 1];
      SearchCursorKey(last);
      current := Some(SearchCursorOf(last));
    }
    BatchesFillPage(rest, keep, n, fetchLimit);
    return Ok(rows);
  }

  /** Looks up the boards of a batch of search rows. */
  method ResolveFound(db: Store, rows: seq<SearchResult>, vis: map<int, bool>, flaky: bool) returns (r: Result<map<int, bool>>)
    requires Agrees(db, vis)
    ensures r.Ok? ==> Agrees(db, r.value) && forall i :: 0 <= i < |rows| ==> rows[i].post.boardID in r.value
    ensures r.Err? ==> flaky && r.error == RepositoryFailure
  {
    var posts := PostsOf(rows);
    ghost var asked;
    r, asked := ResolveBoardVisibility(db, posts, vis, flaky);
    forall i | 0 <= i < |rows| && r.Ok? ensures rows[i].post.boardID in r.value {
      assert posts[i] in posts;
      assert rows[i].post.boardID in BoardIDs(posts);
    }
  }

  function CutFound(db: Store, query: string, limit: nat, ghost from: Option<Key>, text: string, rows: seq<SearchResult>): (list: PostList)
    requires Valid(db) && limit >= 1
    requires rows == Take(Filter(After(FoundRows(db, query), SearchKey(), from), SearchKeep(db)), limit + 1)
    ensures list == SearchPage(db, query, limit, from, text)
  {
    SearchItemsPrint(db, query, limit, from);
    CutOverfetch(Filter(After(FoundRows(db, query), SearchKey(), from), SearchKeep(db)), limit, rows);
    if |rows| > limit then
      PostList(SearchIDs(rows[..limit]), limit, text, true, Some(EncodeSearch(SearchCursorOf(rows[limit - 1]))))
    else PostList(SearchIDs(rows), limit, text, false, None)
  }

  method LoadPublishedPostsBySearch(db: Store, query: string, limit: int, cursor: Option<SearchCursor>, text: string, flaky: bool)
    returns (r: Result<PostList>)
    requires Valid(db)
    ensures r.Ok? ==> IsLimit(limit) && r.value == SearchPage(db, query, limit, SearchFrom(cursor), text)
    ensures r.Err? ==> !IsLimit(limit) || flaky
  {
    if !IsLimit(limit) { return Err(InvalidInput); }
    var collected := CollectFound(db, query, limit + 1, cursor, flaky);
    if collected.Err? { return Err(collected.error); }
    return Ok(CutFound(db, query, limit, SearchFrom(cursor), text, collected.value));
  }

  function IDSet(ids: seq<int>): set<int> { set id | id in ids }

  lemma IDSetStep(ids: seq<int>, n: nat)
    requires n < |ids|
    ensures IDSet(ids[..n + 1]) == IDSet(ids[..n]) + {ids[n]}
  {
    assert ids[..n + 1] == ids[..n] + [ids[n]];
  }

  lemma IDSetBatch(ids: seq<int>, n: nat, m: nat, batch: seq<int>)
    requires n <= m <= |ids| && batch == ids[n..m]
    ensures IDSet(ids[..m]) == IDSet(ids[..n]) + IDSet(batch)
    ensures m == |ids| ==> IDSet(ids) == IDSet(ids[..m])
  {
    assert ids[..m] == ids[..n] + batch;
    if m == |ids| { assert ids[..m] == ids; }
  }

  method AddAll(seen: set<int>, ids: seq<int>) returns (all: set<int>)
    ensures all == seen + IDSet(ids)
  {
    all := seen;
    for i := 0 to |ids|
      invariant all == seen + IDSet(ids[..i])
    {
      IDSetStep(ids, i);
      all := all + {ids[i]};
    }
    assert ids[..|ids|] == ids;
  }

  /** Every post with an active relation to the tag, read 1000 relations at a time. */
  method LoadActiveTagPostIDSet(db: Store, tagID: int, flaky: bool) returns (r: Result<set<int>>)
    requires Valid(db)
    ensures r.Ok? ==> r.value == IDSet(TagIDs(db, tagID))
    ensures r.Err? ==> flaky && r.error == RepositoryFailure
  {
    var postIDs: set<int>, lastID := {}, 0;
    ghost var all, key, n := TagIDs(db, tagID), IdKey(), 0;
    while true
      invariant n <= |all| && After(all, key, IdFrom(lastID)) == all[n..]
      invariant postIDs == IDSet(all[..n])
      decreases |all| - n
    {
      var down := CallFails(flaky);
      if down { return Err(RepositoryFailure); }
      var relations := SelectActiveByTagID(db, tagID, MAX_PAGE_LIMIT, lastID);
      ghost var m := n + |relations|;
      IDSetBatch(all, n, m, relations);
      if |relations| == 0 { return Ok(postIDs); }
      postIDs := AddAll(postIDs, relations);
      if |relations| < MAX_PAGE_LIMIT { return Ok(postIDs); }
      lastID := relations[|relations| - 1];
      assert lastID == all[m - 1] && IdFrom(lastID) == Some(key(lastID));
      AfterNth(all, key, None, m);
      n := m;
    }
  }

  /** Every post the index finds for the query, read 1000 at a time. */
  method LoadSearchMatchSet(db: Store, query: string, flaky: bool) returns (r: Result<set<int>>)
    requires Valid(db)
    ensures r.Ok? ==> r.value == IDSet(SearchIDs(FoundRows(db, query)))
    ensures r.Err? ==> flaky && r.error == RepositoryFailure
  {
    var matches: set<int>, current: Option<SearchCursor> := {}, None;
    ghost var all, key, n := FoundRows(db, query), SearchKey(), 0;
    ghost var ids := SearchIDs(all);
    FoundRowsValid(db, query);
    while true
      invariant n <= |all| && After(all, key, SearchFrom(current)) == all[n..]
      invariant matches == IDSet(ids[..n])
      decreases |all| - n
    {
      var down := CallFails(flaky);
      if down { return Err(RepositoryFailure); }
      var results := SearchPublishedPosts(db, query, MAX_PAGE_LIMIT, current);
      ghost var m := n + |results|;
      assert SearchIDs(results) == ids[n..m];
      IDSetBatch(ids, n, m, SearchIDs(results));
      if |results| == 0 { return Ok(matches); }
      matches := AddAll(matches, SearchIDs(results));
      var last := results[|results| - 1];
      current := Some(SearchCursorOf(last));
      if |results| < MAX_PAGE_LIMIT { return Ok(matches); }
      assert last == all[m - 1];
      AfterNth(all, key, None, m);
      SearchCursorKey(last);
      n := m;
    }
  }

  /** The posts among `ids` a visitor would be shown. */
  function VisibleIDs(db: Store, ids: set<int>): set<int> {
    set id | id in ids && IsPublished(db, id) && BoardVisible(db, db.posts[id].boardID)
  }

  /** The published posts of a lookup, in no particular order. */
  method PublishedAmong(db: Store, postsByID: map<int, Post>) returns (posts: seq<Post>)
    requires forall id :: id in postsByID ==> id in db.posts && postsByID[id] == db.posts[id] && postsByID[id].id == id
    ensures NoDuplicates(PostIDs(posts)) && forall i :: 0 <= i < |posts| ==> IsPublished(db, posts[i].id) && posts[i] == db.posts[posts[i].id]
    ensures forall id :: id in PostIDs(posts) <==> id in postsByID && IsPublished(db, id)
  {
    var ids := ListOf(postsByID.Keys);
    posts := [];
    for i := 0 to |ids|
      invariant NoDuplicates(PostIDs(posts))
      invariant forall k :: 0 <= k < |posts| ==> IsPublished(db, posts[k].id) && posts[k] == db.posts[posts[k].id]
      invariant forall id :: id in PostIDs(posts) <==> id in ids[..i] && IsPublished(db, id)
    {
      assert ids[..i + 1] == ids[..i] + [ids[i]];
      assert ids[i] !in ids[..i];
      assert ids[i] in postsByID.Keys;
      var post := postsByID[ids[i]];
      if post.status == Published {
        assert post.id == ids[i];
        assert PostIDs(posts + [post]) == PostIDs(posts) + [ids[i]];
        posts := posts + [post];
      }
    }
    assert ids[..|ids|] == ids;
  }

  method CountShown(db: Store, posts: seq<Post>, vis: map<int, bool>) returns (total: nat)
    requires NoDuplicates(PostIDs(posts)) && forall i :: 0 <= i < |posts| ==> IsPublished(db, posts[i].id) && posts[i] == db.posts[posts[i].id]
    requires Agrees(db, vis) && BoardIDs(posts) <= vis.Keys
    ensures total == |VisibleIDs(db, IDSet(PostIDs(posts)))|
  {
    total := 0;
    ghost var ids := PostIDs(posts);
    ghost var shown: set<int> := {};
    for i := 0 to |posts|
      invariant total == |shown| && shown == VisibleIDs(db, IDSet(ids[..i]))
    {
      IDSetStep(ids, i);
      assert posts[i].boardID in BoardIDs(posts);
      assert ids[i] !in ids[..i];
      if vis[posts[i].boardID] {
        total := total + 1;
        shown := shown + {ids[i]};
      }
    }
    assert ids[..|posts|] == ids;
  }

  /** Counts the visible posts among `ids`, meeting them in no particular order. */
  method CountVisiblePostsFromIDs(db: Store, ids: set<int>, flaky: bool) returns (r: Result<nat>)
    requires Valid(db)
    ensures r.Ok? ==> r.value == |VisibleIDs(db, ids)|
    ensures r.Err? ==> flaky && r.error == RepositoryFailure
  {
    if ids == {} {
      assert VisibleIDs(db, ids) == {};
      return Ok(0);
    }
    var postIDs := ListOf(ids);
    var down := CallFails(flaky);
    if down { return Err(RepositoryFailure); }
    var posts := PublishedAmong(db, SelectPostsByIDs(db, postIDs));
    ghost var asked;
    var resolved;
    resolved, asked := ResolveBoardVisibility(db, posts, map[], flaky);
    if resolved.Err? { return Err(resolved.error); }
    var total := CountShown(db, posts, resolved.value);
    assert VisibleIDs(db, IDSet(PostIDs(posts))) == VisibleIDs(db, ids);
    return Ok(total);
  }
}
