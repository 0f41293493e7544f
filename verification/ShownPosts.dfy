/** What the lists answer and show, said of the tables alone: the fields of posts, boards, relations and rankings. */
module ShownPosts {
  import opened Text
  import opened Cursors
  import opened FilteredWalk
  import opened PostStore
  import opened PostQuery
  import opened TagSearchQuery
  import opened PostLists
  import opened Pager
  import opened ListWalks
  import TagCoordinator

  /** What anybody may see: a published post on a board that exists and is not hidden. */
  predicate Seen(db: Store, id: int) {
    id in db.posts && db.posts[id].status == Published && db.posts[id].boardID in db.boards && !db.boards[db.posts[id].boardID].hidden
  }

  lemma {:induction false} FeedKeepsSeen(db: Store, sort: string, window: string, wanted: Post -> bool)
    requires Valid(db)
    ensures forall r :: r in FeedRows(db, sort, window) ==>
      (FeedKeep(db, wanted)(r) <==> Seen(db, r.postID) && wanted(db.posts[r.postID]))
  {
    FeedRowsValid(db, sort, window);
    forall r | r in FeedRows(db, sort, window)
      ensures FeedKeep(db, wanted)(r) <==> Seen(db, r.postID) && wanted(db.posts[r.postID])
    {
      assert ValidFeedRow(db, r);
    }
  }

  // One answer, for any cursor.

  /** The posts of a ranked page. */
  lemma {:induction false} RankedPageSeen(db: Store, sort: string, window: string, limit: int, cursor: string, wanted: Post -> bool, id: int)
    requires Valid(db) && IsField(sort) && IsField(window) && limit >= 1
    requires var a := RankedAnswer(db, sort, window, limit, cursor, wanted); a.Ok? && id in a.value.postIDs
    ensures Seen(db, id) && wanted(db.posts[id])
    ensures (sort, window) in db.ranked && exists r :: r in db.ranked[(sort, window)] && r.postID == id
  {
    var from := FeedFrom(DecodeFeed(sort, window, cursor).value);
    var items := PageOf(After(FeedRows(db, sort, window), FeedKey(sort), from), FeedKeep(db, wanted), limit).items;
    PageItemsAreRows(FeedRows(db, sort, window), FeedKey(sort), from, FeedKeep(db, wanted), limit);
    FeedKeepsSeen(db, sort, window, wanted);
    var i :| 0 <= i < |FeedIDs(items)| && FeedIDs(items)[i] == id;
    assert items[i] in items && items[i] in FeedRows(db, sort, window);
  }

  /** Whatever the cursor, a feed lists only published posts on boards that are not hidden. */
  lemma {:induction false} FeedHidesHidden(db: Store, sortValue: string, windowValue: string, limit: int, cursor: string, id: int)
    requires Valid(db)
    requires var a := FeedAnswer(db, sortValue, windowValue, limit, cursor); a.Ok? && id in a.value.postIDs
    ensures id in db.posts && db.posts[id].status == Published
    ensures db.posts[id].boardID in db.boards && !db.boards[db.posts[id].boardID].hidden
  {
    NormalizedAreFields(sortValue, windowValue, "hot");
    var (sort, window) := NormalizeSortWindow(sortValue, windowValue, "hot").value;
    RankedPageSeen(db, sort, window, limit, cursor, Anything(), id);
  }

  /** Nor does a board list, by date or ranked; all it lists is on that board. */
  lemma {:induction false} BoardHidesHidden(db: Store, boardID: int, sortValue: string, windowValue: string, limit: int, cursor: string, id: int)
    requires Valid(db)
    requires var a := BoardAnswer(db, boardID, sortValue, windowValue, limit, cursor); a.Ok? && id in a.value.postIDs
    ensures id in db.posts && db.posts[id].status == Published && db.posts[id].boardID == boardID
    ensures boardID in db.boards && !db.boards[boardID].hidden
  {
    NormalizedAreFields(sortValue, windowValue, LATEST);
    var (sort, window) := NormalizeSortWindow(sortValue, windowValue, LATEST).value;
    if sort == LATEST {
      BoardPageSeen(db, boardID, limit, DecodeOpaque(cursor).value, cursor, id);
    } else {
      RankedPageSeen(db, sort, window, limit, cursor, OnBoard(boardID), id);
    }
  }

  lemma {:induction false} BoardPageSeen(db: Store, boardID: int, limit: nat, lastID: int, text: string, id: int)
    requires Valid(db) && limit >= 1 && id in LoadCursorListPage(limit, text, SelectPosts(db, boardID, limit + 1, lastID)).postIDs
    ensures id in db.posts && db.posts[id].status == Published && db.posts[id].boardID == boardID
  {
    var fetched := SelectPosts(db, boardID, limit + 1, lastID);
    AfterMembers(BoardRows(db, boardID), PostKey(), IdFrom(lastID));
    BoardRowsAre(db, boardID);
    ListedIsFetched(limit, text, fetched, id);
  }

  lemma ListedIsFetched(limit: nat, text: string, fetched: seq<Post>, id: int)
    requires limit >= 1 && id in LoadCursorListPage(limit, text, fetched).postIDs
    ensures exists p :: p in fetched && p.id == id
  {
    var kept := if |fetched| > limit then fetched[..limit] else fetched;
    assert LoadCursorListPage(limit, text, fetched).postIDs == PostIDs(kept);
    var i :| 0 <= i < |kept| && kept[i].id == id;
    assert kept[i] in fetched;
  }

  lemma {:induction false} BoardRowsAre(db: Store, boardID: int)
    requires Valid(db)
    ensures forall p :: p in BoardRows(db, boardID) <==> p.id in db.posts && p == db.posts[p.id] && p.status == Published && p.boardID == boardID
  {
    FilterMembers(PublishedOf(db, db.newest), (p: Post) => p.boardID == boardID);
    PublishedOfMembers(db, db.newest);
  }

  /** The list of a hidden or unknown board is not found. */
  lemma HiddenBoardIsNotFound(db: Store, boardID: int, sortValue: string, windowValue: string, limit: int, cursor: string)
    requires Valid(db) && (boardID !in db.boards || db.boards[boardID].hidden)
    ensures BoardAnswer(db, boardID, sortValue, windowValue, limit, cursor).Err?
    ensures 1 <= limit <= 1000 && DecodeOpaque(cursor).Ok? ==> BoardAnswer(db, boardID, sortValue, windowValue, limit, cursor) == Err(NotFound)
  {
  }

  /** A tag list, by date or ranked, lists only seen posts that the tag relates to. */
  lemma {:induction false} TagHidesHidden(db: Store, tagName: string, sortValue: string, windowValue: string, limit: int, cursor: string, id: int)
    requires Valid(db)
    requires var a := TagAnswer(db, tagName, sortValue, windowValue, limit, cursor); a.Ok? && id in a.value.postIDs
    ensures id in db.posts && db.posts[id].status == Published
    ensures db.posts[id].boardID in db.boards && !db.boards[db.posts[id].boardID].hidden
    ensures var name := TagCoordinator.NormalizeTagName(tagName);
      name in db.tagIDs && db.tagIDs[name] in db.tagged && id in db.tagged[db.tagIDs[name]]
  {
    NormalizedAreFields(sortValue, windowValue, LATEST);
    var (sort, window) := NormalizeSortWindow(sortValue, windowValue, LATEST).value;
    var tagID := TagOf(db, tagName);
    if sort == LATEST {
      var from := IdFrom(DecodeOpaque(cursor).value);
      var items := PageOf(After(TagRows(db, tagID), PostKey(), from), PostKeep(db), limit).items;
      PageItemsAreRows(TagRows(db, tagID), PostKey(), from, PostKeep(db), limit);
      TagRowsAre(db, tagID);
      var i :| 0 <= i < |PostIDs(items)| && PostIDs(items)[i] == id;
      assert items[i] in items && items[i] in TagRows(db, tagID);
    } else {
      RankedPageSeen(db, sort, window, limit, cursor, Among(IDSet(TagIDs(db, tagID))), id);
      assert db.posts[id].id == id;
    }
  }

  lemma {:induction false} TagRowsAre(db: Store, tagID: int)
    requires Valid(db)
    ensures forall p :: p in TagRows(db, tagID) <==>
      tagID in db.tagged && p.id in db.tagged[tagID] && p.id in db.posts && p == db.posts[p.id] && p.status == Published
  {
    PublishedOfMembers(db, TagIDs(db, tagID));
  }

  /** A search lists only what the index finds for the query: by relevance where the index' copy names a board that is not
      hidden, ranked where the post itself is seen. */
  lemma {:induction false} SearchHidesHidden(db: Store, queryText: string, sortValue: string, windowValue: string, limit: int, cursor: string, id: int)
    requires Valid(db)
    requires var a := SearchAnswer(db, queryText, sortValue, windowValue, limit, cursor); a.Ok? && id in a.value.postIDs
    ensures NormalizeSearchQuery(queryText) in db.found
    ensures NormalizeSearchSort(sortValue, windowValue).value.0 == RELEVANCE ==>
      exists r :: r in db.found[NormalizeSearchQuery(queryText)] && r.post.id == id && r.post.boardID in db.boards && !db.boards[r.post.boardID].hidden
    ensures NormalizeSearchSort(sortValue, windowValue).value.0 != RELEVANCE ==>
      && (exists r :: r in db.found[NormalizeSearchQuery(queryText)] && r.post.id == id)
      && id in db.posts && db.posts[id].status == Published
      && db.posts[id].boardID in db.boards && !db.boards[db.posts[id].boardID].hidden
  {
    NormalizedAreFields(sortValue, windowValue, LATEST);
    var (sort, window) := NormalizeSearchSort(sortValue, windowValue).value;
    var query := NormalizeSearchQuery(queryText);
    if sort == RELEVANCE {
      RelevancePageSeen(db, query, limit, SearchFrom(DecodeSearch(sort, window, cursor).value), cursor, id);
    } else {
      RankedPageSeen(db, sort, window, limit, cursor, Among(IDSet(SearchIDs(FoundRows(db, query)))), id);
      assert db.posts[id].id == id;
      FoundRowOf(FoundRows(db, query), id);
    }
  }

  lemma FoundRowOf(rows: seq<SearchResult>, id: int)
    requires id in SearchIDs(rows)
    ensures exists r :: r in rows && r.post.id == id
  {
    var i :| 0 <= i < |SearchIDs(rows)| && SearchIDs(rows)[i] == id;
    assert rows[i] in rows;
  }

  lemma {:induction false} RelevancePageSeen(db: Store, query: string, limit: nat, from: Option<Key>, text: string, id: int)
    requires Valid(db) && limit >= 1 && id in SearchPage(db, query, limit, from, text).postIDs
    ensures query in db.found
    ensures exists r :: r in db.found[query] && r.post.id == id && r.post.boardID in db.boards && !db.boards[r.post.boardID].hidden
  {
    var items := PageOf(After(FoundRows(db, query), SearchKey(), from), SearchKeep(db), limit).items;
    PageItemsAreRows(FoundRows(db, query), SearchKey(), from, SearchKeep(db), limit);
    var i :| 0 <= i < |SearchIDs(items)| && SearchIDs(items)[i] == id;
    assert items[i] in items && items[i] in FoundRows(db, query);
  }

  // Refusals, in the order in which the arguments are looked at.

  lemma FeedRefusals(db: Store, sortValue: string, windowValue: string, limit: int, cursor: string)
    requires Valid(db)
    ensures
      var words := NormalizeSortWindow(sortValue, windowValue, "hot");
      var a := FeedAnswer(db, sortValue, windowValue, limit, cursor);
      && (a.Ok? <==> 1 <= limit <= 1000 && words.Ok? && DecodeFeed(words.value.0, words.value.1, cursor).Ok?)
      && (a.Err? ==> a == Err(InvalidInput))
  {
    SortWords(sortValue, windowValue, "hot");
  }

  /** First limit and cursor, then the board, then sort and window, and a ranked list reads its cursor once more. */
  lemma BoardRefusals(db: Store, boardID: int, sortValue: string, windowValue: string, limit: int, cursor: string)
    requires Valid(db)
    ensures
      var words := NormalizeSortWindow(sortValue, windowValue, LATEST);
      var a := BoardAnswer(db, boardID, sortValue, windowValue, limit, cursor);
      var readable := 1 <= limit <= 1000 && DecodeOpaque(cursor).Ok?;
      var known := boardID in db.boards && !db.boards[boardID].hidden;
      && (a.Ok? <==> readable && known && words.Ok? && (words.value.0 == "latest" || DecodeFeed(words.value.0, words.value.1, cursor).Ok?))
      && (a.Err? ==> a == Err(if readable && !known then NotFound else InvalidInput))
  {
    SortWords(sortValue, windowValue, LATEST);
  }

  /** First limit, cursor and name, then the tag, then sort and window. */
  lemma TagRefusals(db: Store, tagName: string, sortValue: string, windowValue: string, limit: int, cursor: string)
    requires Valid(db)
    ensures
      var words, name := NormalizeSortWindow(sortValue, windowValue, LATEST), TagCoordinator.NormalizeTagName(tagName);
      var a := TagAnswer(db, tagName, sortValue, windowValue, limit, cursor);
      var readable := 1 <= limit <= 1000 && DecodeOpaque(cursor).Ok? && name != "" && TagCoordinator.Utf8Length(name) <= 30;
      && (a.Ok? <==> readable && name in db.tagIDs && words.Ok? && (words.value.0 == "latest" || DecodeFeed(words.value.0, words.value.1, cursor).Ok?))
      && (a.Err? ==> a == Err(if readable && name !in db.tagIDs then NotFound else InvalidInput))
  {
    SortWords(sortValue, windowValue, LATEST);
  }

  lemma SearchRefusals(db: Store, queryText: string, sortValue: string, windowValue: string, limit: int, cursor: string)
    requires Valid(db)
    ensures
      var words := NormalizeSearchSort(sortValue, windowValue);
      var a := SearchAnswer(db, queryText, sortValue, windowValue, limit, cursor);
      var readable := words.Ok? &&
        if words.value.0 == "relevance" then DecodeSearch("relevance", "", cursor).Ok? else DecodeFeed(words.value.0, words.value.1, cursor).Ok?;
      && (a.Ok? <==> 1 <= limit <= 1000 && !IsBlank(queryText) && readable)
      && (a.Err? ==> a == Err(InvalidInput))
  {
    SearchWords(sortValue, windowValue);
    EmptyQueryIff(queryText);
  }

  // Whole walks, told from the tables.

  /** Following a feed shows the rows of the ranking whose posts are seen, all of them, in its order. */
  lemma {:induction false} FeedShows(db: Store, sortValue: string, windowValue: string, limit: int)
    requires Valid(db) && 1 <= limit <= 1000 && NormalizeSortWindow(sortValue, windowValue, "hot").Ok?
    ensures
      var q := NormalizeSortWindow(sortValue, windowValue, "hot").value;
      var ranking := if q in db.ranked then db.ranked[q] else [];
      WalkShows(FeedList(db, sortValue, windowValue, limit), IDs(FeedID(), Filter(ranking, (r: FeedResult) => Seen(db, r.postID))), limit)
  {
    var (sort, window) := NormalizeSortWindow(sortValue, windowValue, "hot").value;
    FeedWalk(db, sortValue, windowValue, limit);
    FeedKeepsSeen(db, sort, window, Anything());
    FilterAgrees(FeedRows(db, sort, window), FeedKeep(db, Anything()), (r: FeedResult) => Seen(db, r.postID));
  }

  /** A ranked search shows those among them that the index finds for the query. */
  lemma {:induction false} RankedSearchShows(db: Store, queryText: string, sortValue: string, windowValue: string, limit: int)
    requires Valid(db) && 1 <= limit <= 1000 && NormalizeSearchQuery(queryText) != ""
    requires NormalizeSearchSort(sortValue, windowValue).Ok? && NormalizeSearchSort(sortValue, windowValue).value.0 != RELEVANCE
    ensures
      var q, query := NormalizeSearchSort(sortValue, windowValue).value, NormalizeSearchQuery(queryText);
      var ranking := if q in db.ranked then db.ranked[q] else [];
      WalkShows(SearchList(db, queryText, sortValue, windowValue, limit),
                IDs(FeedID(), Filter(ranking, (r: FeedResult) => Seen(db, r.postID) && Finds(db, query, r.postID))), limit)
  {
    var (sort, window) := NormalizeSearchSort(sortValue, windowValue).value;
    var query, wanted := NormalizeSearchQuery(queryText), Among(Matches(db, queryText));
    RankedSearchWalk(db, queryText, sortValue, windowValue, limit);
    FeedKeepsSeen(db, sort, window, wanted);
    forall id ensures id in Matches(db, queryText) <==> Finds(db, query, id) { FoundIff(db, query, id); }
    forall id | Seen(db, id) ensures wanted(db.posts[id]) <==> Finds(db, query, id) { assert db.posts[id].id == id; }
    FilterAgrees(FeedRows(db, sort, window), FeedKeep(db, wanted), (r: FeedResult) => Seen(db, r.postID) && Finds(db, query, r.postID));
  }

  predicate Finds(db: Store, query: string, id: int) { query in db.found && exists i :: 0 <= i < |db.found[query]| && db.found[query][i].post.id == id }

  lemma FoundIff(db: Store, query: string, id: int)
    ensures id in IDSet(SearchIDs(FoundRows(db, query))) <==> Finds(db, query, id)
  {
    var ids := SearchIDs(FoundRows(db, query));
    if id in ids { var i :| 0 <= i < |ids| && ids[i] == id; assert db.found[query][i].post.id == id; }
    if Finds(db, query, id) {
      var i :| 0 <= i < |db.found[query]| && db.found[query][i].post.id == id;
      assert ids[i] == id;
    }
  }

  /** A search by relevance shows the answers of the index whose board is not hidden, in their order. */
  lemma {:induction false} RelevanceShows(db: Store, queryText: string, sortValue: string, windowValue: string, limit: int)
    requires Valid(db) && 1 <= limit <= 1000 && NormalizeSearchQuery(queryText) != ""
    requires NormalizeSearchSort(sortValue, windowValue) == Ok((RELEVANCE, ""))
    ensures
      var query := NormalizeSearchQuery(queryText);
      var found := if query in db.found then db.found[query] else [];
      WalkShows(SearchList(db, queryText, sortValue, windowValue, limit),
                IDs(SearchID(), Filter(found, (r: SearchResult) => r.post.boardID in db.boards && !db.boards[r.post.boardID].hidden)), limit)
  {
    RelevanceWalk(db, queryText, sortValue, windowValue, limit);
    FilterAgrees(FoundRows(db, NormalizeSearchQuery(queryText)), SearchKeep(db),
                 (r: SearchResult) => r.post.boardID in db.boards && !db.boards[r.post.boardID].hidden);
  }

  /** The ids that a list by date shows: newest first, so each once. */
  predicate NewestFirst(ids: seq<int>) { forall i, j :: 0 <= i < j < |ids| ==> ids[i] > ids[j] }

  lemma PostsDescend(rows: seq<Post>)
    requires Descending(rows, PostKey())
    ensures NewestFirst(IDs(PostID(), rows))
  {
    forall i, j | 0 <= i < j < |rows| ensures rows[i].id > rows[j].id { assert Below(PostKey()(rows[j]), PostKey()(rows[i])); }
  }

  /** A board list by date shows exactly the published posts of the board, newest first. */
  lemma {:induction false} BoardShows(db: Store, boardID: int, sortValue: string, windowValue: string, limit: int) returns (ids: seq<int>)
    requires Valid(db) && 1 <= limit <= 1000 && boardID in db.boards && !db.boards[boardID].hidden
    requires NormalizeSortWindow(sortValue, windowValue, LATEST) == Ok((LATEST, ""))
    ensures WalkShows(BoardList(db, boardID, sortValue, windowValue, limit), ids, limit)
    ensures NewestFirst(ids) && forall id :: id in ids <==> id in db.posts && db.posts[id].status == Published && db.posts[id].boardID == boardID
  {
    var rows := BoardRows(db, boardID);
    ids := IDs(PostID(), rows);
    BoardWalk(db, boardID, sortValue, windowValue, limit);
    BoardRowsValid(db, boardID);
    PostsDescend(rows);
    BoardRowsAre(db, boardID);
    forall id ensures id in ids <==> id in db.posts && db.posts[id].status == Published && db.posts[id].boardID == boardID {
      IdOfPost(db, rows, id);
    }
  }

  lemma IdOfPost(db: Store, rows: seq<Post>, id: int)
    requires Valid(db) && forall p :: p in rows ==> p.id in db.posts && p == db.posts[p.id]
    ensures id in IDs(PostID(), rows) <==> id in db.posts && db.posts[id] in rows
  {
    var ids := IDs(PostID(), rows);
    if id in ids { var i :| 0 <= i < |ids| && ids[i] == id; assert rows[i] in rows; }
    if id in db.posts && db.posts[id] in rows {
      var i :| 0 <= i < |rows| && rows[i] == db.posts[id];
      assert ids[i] == id;
    }
  }

  /** The active relations of the tag a request names. */
  function Related(db: Store, tagName: string): seq<int> {
    var name := TagCoordinator.NormalizeTagName(tagName);
    if name in db.tagIDs && db.tagIDs[name] in db.tagged then db.tagged[db.tagIDs[name]] else []
  }

  /** A tag list by date shows exactly the seen posts that the tag relates to, newest first. */
  lemma {:induction false} TagShows(db: Store, tagName: string, sortValue: string, windowValue: string, limit: int) returns (ids: seq<int>)
    requires Valid(db) && 1 <= limit <= 1000 && IsLatestTag(db, tagName, sortValue, windowValue)
    ensures WalkShows(TagList(db, tagName, sortValue, windowValue, limit), ids, limit)
    ensures NewestFirst(ids) && forall id :: id in ids <==> id in Related(db, tagName) && Seen(db, id)
  {
    var rows := TagRows(db, TagOf(db, tagName));
    var shown := Filter(rows, PostKeep(db));
    ids := IDs(PostID(), shown);
    TagWalk(db, tagName, sortValue, windowValue, limit);
    TagRowsValid(db, TagOf(db, tagName));
    FilterDescends(rows, PostKey(), PostKeep(db));
    PostsDescend(shown);
    FilterMembers(rows, PostKeep(db));
    TagRowsAre(db, TagOf(db, tagName));
    forall id ensures id in ids <==> id in Related(db, tagName) && Seen(db, id) { IdOfPost(db, shown, id); }
  }

  /** A ranked tag list: for a blank cursor the first rows of the ranking that are seen and related to the tag; followed, it
      shows no more than these, so all of them exactly when they fit on one page. */
  lemma {:induction false} RankedTagShows(db: Store, tagName: string, sortValue: string, windowValue: string, limit: int, n: nat)
    requires Valid(db) && 1 <= limit <= 1000 && n >= 1
    requires TagCoordinator.IsTagName(TagCoordinator.NormalizeTagName(tagName)) && TagCoordinator.NormalizeTagName(tagName) in db.tagIDs
    requires NormalizeSortWindow(sortValue, windowValue, LATEST).Ok? && NormalizeSortWindow(sortValue, windowValue, LATEST).value.0 != LATEST
    ensures
      var q := NormalizeSortWindow(sortValue, windowValue, LATEST).value;
      var ranking := if q in db.ranked then db.ranked[q] else [];
      var ids := IDs(FeedID(), Filter(ranking, (r: FeedResult) => Seen(db, r.postID) && r.postID in Related(db, tagName)));
      var list := TagList(db, tagName, sortValue, windowValue, limit);
      && list("").Ok? && list("").value.postIDs == (if |ids| <= limit then ids else ids[..limit])
      && Joined(Follow(list, "", n)) == (if |ids| <= limit then ids else ids[..limit])
      && (Joined(Follow(list, "", n)) == ids <==> |ids| <= limit)
  {
    NormalizedAreFields(sortValue, windowValue, LATEST);
    var (sort, window) := NormalizeSortWindow(sortValue, windowValue, LATEST).value;
    var list, wanted := TagList(db, tagName, sortValue, windowValue, limit), Among(IDSet(TagIDs(db, TagOf(db, tagName))));
    forall cursor | !IsBlank(cursor) ensures list(cursor).Err? {
      RankedTagRefusesCursors(db, tagName, sortValue, windowValue, limit, cursor);
    }
    BlankMeansStart(sort, window);
    OnePageOnly(db, sort, window, limit, wanted, list, n);
    FeedKeepsSeen(db, sort, window, wanted);
    forall id | Seen(db, id) ensures wanted(db.posts[id]) <==> id in Related(db, tagName) { assert db.posts[id].id == id; }
    FilterAgrees(FeedRows(db, sort, window), FeedKeep(db, wanted), (r: FeedResult) => Seen(db, r.postID) && r.postID in Related(db, tagName));
  }

  /** A ranked board list, likewise, with the posts of the board. */
  lemma {:induction false} RankedBoardShows(db: Store, boardID: int, sortValue: string, windowValue: string, limit: int, n: nat)
    requires Valid(db) && 1 <= limit <= 1000 && n >= 1 && boardID in db.boards && !db.boards[boardID].hidden
    requires NormalizeSortWindow(sortValue, windowValue, LATEST).Ok? && NormalizeSortWindow(sortValue, windowValue, LATEST).value.0 != LATEST
    ensures
      var q := NormalizeSortWindow(sortValue, windowValue, LATEST).value;
      var ranking := if q in db.ranked then db.ranked[q] else [];
      var ids := IDs(FeedID(), Filter(ranking, (r: FeedResult) => Seen(db, r.postID) && db.posts[r.postID].boardID == boardID));
      var list := BoardList(db, boardID, sortValue, windowValue, limit);
      && list("").Ok? && list("").value.postIDs == (if |ids| <= limit then ids else ids[..limit])
      && Joined(Follow(list, "", n)) == (if |ids| <= limit then ids else ids[..limit])
      && (Joined(Follow(list, "", n)) == ids <==> |ids| <= limit)
  {
    NormalizedAreFields(sortValue, windowValue, LATEST);
    var (sort, window) := NormalizeSortWindow(sortValue, windowValue, LATEST).value;
    var list, wanted := BoardList(db, boardID, sortValue, windowValue, limit), OnBoard(boardID);
    forall cursor | !IsBlank(cursor) ensures list(cursor).Err? {
      RankedBoardRefusesCursors(db, boardID, sortValue, windowValue, limit, cursor);
    }
    BlankMeansStart(sort, window);
    OnePageOnly(db, sort, window, limit, wanted, list, n);
    FeedKeepsSeen(db, sort, window, wanted);
    FilterAgrees(FeedRows(db, sort, window), FeedKeep(db, wanted), (r: FeedResult) => Seen(db, r.postID) && db.posts[r.postID].boardID == boardID);
  }

  // The order of a ranking.

  /** The float of one bit pattern is greater than that of another, neither a NaN: by sign, then by magnitude, the zeros equal. */
  predicate Higher(x: nat, y: nat) {
    var half := 0x8000_0000_0000_0000;
    || (x < half && y < half && x > y)
    || (x < half && y >= half && !(x == 0 && y == half))
    || (x >= half && y >= half && x < y)
  }

  /** Scores are the patterns up to the infinities, of either sign. */
  lemma ScoresAre(bits: nat)
    ensures IsScore(bits) <==> bits <= 0x7FF0_0000_0000_0000 || 0x8000_0000_0000_0000 <= bits <= 0xFFF0_0000_0000_0000
  {
  }

  /** A ranking lists newer posts first when sorted by date, otherwise higher scores first and newer posts among equal ones; the
      greater id goes first at last. */
  lemma {:induction false} RankingOrder(db: Store, sort: string, window: string, i: nat, j: nat)
    requires Valid(db) && (sort, window) in db.ranked && i < j < |db.ranked[(sort, window)]|
    ensures
      var r, later := db.ranked[(sort, window)][i], db.ranked[(sort, window)][j];
      var newer := r.publishedAt > later.publishedAt || (r.publishedAt == later.publishedAt && r.postID > later.postID);
      if sort == "latest" then newer else Higher(r.scoreBits, later.scoreBits) || (!Higher(later.scoreBits, r.scoreBits) && newer)
  {
    FeedRowsValid(db, sort, window);
    var rows := FeedRows(db, sort, window);
    assert Below(FeedKey(sort)(rows[j]), FeedKey(sort)(rows[i]));
  }

  /** The counted posts of a set of ids. */
  lemma VisibleAreSeen(db: Store, ids: set<int>)
    ensures VisibleIDs(db, ids) == set id | id in ids && Seen(db, id)
  {
  }
}
