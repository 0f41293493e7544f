/** The totals printed with the lists, compared with what following the lists shows. */
module ListTotals {
  import opened Text
  import opened Lists
  import opened FilteredWalk
  import opened PostStore
  import opened PostQuery
  import opened TagSearchQuery
  import opened PostLists
  import opened Pager
  import opened ListWalks

  // Lists against sets.

  lemma SubsetSizes<T>(part: set<T>, whole: set<T>)
    requires part <= whole
    ensures |part| <= |whole| && (|part| == |whole| <==> part == whole)
  {
    assert whole == part + (whole - part);
  }

  /** A list without repeats inside a set: no longer than the set, and as long exactly when it lists all of it. */
  lemma CountInside(ids: seq<int>, whole: set<int>)
    requires NoDuplicates(ids) && forall id :: id in ids ==> id in whole
    ensures |ids| <= |whole| && (|ids| == |whole| <==> forall id :: id in whole ==> id in ids)
  {
    var part := set id | id in ids;
    SizeOfList(ids, part);
    SubsetSizes(part, whole);
    if part == whole { assert forall id :: id in whole ==> id in part; }
    if forall id :: id in whole ==> id in ids { assert part == whole; }
  }

  predicate EachOnce<T>(rows: seq<T>, id: T -> int) { forall i, j :: 0 <= i < j < |rows| ==> id(rows[i]) != id(rows[j]) }

  lemma {:induction false} FilterKeepsEachOnce<T>(rows: seq<T>, id: T -> int, keep: T -> bool)
    requires EachOnce(rows, id)
    ensures EachOnce(Filter(rows, keep), id) && NoDuplicates(IDs(id, Filter(rows, keep)))
  {
    if rows != [] {
      var init, last := rows[..|rows| - 1], rows[|rows| - 1];
      FilterKeepsEachOnce(init, id, keep);
      FilterMembers(init, keep);
      var kept := Filter(init, keep);
      forall i | 0 <= i < |kept| ensures id(kept[i]) != id(last) {
        assert kept[i] in init;
        var k :| 0 <= k < |init| && init[k] == kept[i];
        assert rows[k] == init[k];
      }
    }
  }

  /** An id is listed exactly when some kept row carries it. */
  lemma {:induction false} ListedIff<T(!new)>(rows: seq<T>, id: T -> int, keep: T -> bool, x: int)
    ensures x in IDs(id, Filter(rows, keep)) <==> exists r :: r in rows && keep(r) && id(r) == x
  {
    var kept := Filter(rows, keep);
    var ids := IDs(id, kept);
    FilterMembers(rows, keep);
    if x in ids {
      var i :| 0 <= i < |ids| && ids[i] == x;
      assert kept[i] in kept && id(kept[i]) == x;
    }
    if r :| r in rows && keep(r) && id(r) == x {
      assert r in kept;
      var i :| 0 <= i < |kept| && kept[i] == r;
      assert ids[i] == x;
    }
  }

  // Board lists and the feed.

  /** The published posts on some boards. */
  function PublishedOn(db: Store, boards: set<int>): set<int> { set id | id in db.posts && IsPublished(db, id) && db.posts[id].boardID in boards }

  lemma {:induction false} BoardIDsArePublished(db: Store, boardID: int)
    requires Valid(db)
    ensures |PublishedOn(db, {boardID})| == CountPublishedPostsByBoardID(db, boardID)
  {
    var rows := BoardRows(db, boardID);
    var ids := IDs(PostID(), rows);
    var onBoard := (p: Post) => p.boardID == boardID;
    BoardRowsValid(db, boardID);
    DescendingHasNoDuplicates(rows);
    PublishedOfMembers(db, db.newest);
    FilterMembers(PublishedOf(db, db.newest), onBoard);
    forall id ensures id in ids <==> id in PublishedOn(db, {boardID}) {
      if id in ids {
        var i :| 0 <= i < |ids| && ids[i] == id;
        assert rows[i] in rows;
      }
      if id in PublishedOn(db, {boardID}) {
        assert db.posts[id] in rows;
        var i :| 0 <= i < |rows| && rows[i] == db.posts[id];
        assert ids[i] == id;
      }
    }
    SizeOfList(ids, PublishedOn(db, {boardID}));
  }

  lemma OneMoreBoard(db: Store, boards: set<int>, b: int)
    requires b !in boards
    ensures |PublishedOn(db, boards + {b})| == |PublishedOn(db, boards)| + |PublishedOn(db, {b})|
  {
    var left, right := PublishedOn(db, boards), PublishedOn(db, {b});
    assert PublishedOn(db, boards + {b}) == left + right;
    assert left !! right;
  }

  /** Counting board by board counts every post once. */
  lemma {:induction false} SumIsCount(db: Store, boards: seq<int>)
    requires Valid(db) && NoDuplicates(boards)
    ensures SumPublished(db, boards) == |PublishedOn(db, IDSet(boards))|
  {
    if boards == [] {
      assert PublishedOn(db, IDSet(boards)) == {};
    } else {
      var init, last := boards[..|boards| - 1], boards[|boards| - 1];
      SumIsCount(db, init);
      BoardIDsArePublished(db, last);
      assert boards == init + [last] && last !in init;
      assert IDSet(boards) == IDSet(init) + {last};
      OneMoreBoard(db, IDSet(init), last);
    }
  }

  /** The printed total of a board's latest list is the number of posts its walk shows. */
  lemma BoardTotalIsWalkLength(db: Store, boardID: int, sortValue: string, windowValue: string, limit: int, n: nat)
    requires Valid(db) && IsLimit(limit) && BoardVisible(db, boardID)
    requires NormalizeSortWindow(sortValue, windowValue, LATEST) == Ok((LATEST, ""))
    requires n >= PageCount(|BoardRows(db, boardID)|, limit)
    ensures CountPublishedPostsByBoardID(db, boardID) == |Joined(Follow(BoardList(db, boardID, sortValue, windowValue, limit), "", n))|
  {
    BoardWalk(db, boardID, sortValue, windowValue, limit);
    var ids := IDs(PostID(), BoardRows(db, boardID));
    assert Joined(Follow(BoardList(db, boardID, sortValue, windowValue, limit), "", n)) == ids;
  }

  /** The ranking holds each post at most once. */
  ghost predicate RanksOnce(db: Store, sort: string, window: string) { EachOnce(FeedRows(db, sort, window), FeedID()) }

  ghost predicate Ranked(db: Store, sort: string, window: string, id: int) { exists r :: r in FeedRows(db, sort, window) && r.postID == id }

  /** A ranked list shows exactly the ranked posts among the wanted, published and visible ones. */
  lemma {:induction false} RankedShows(db: Store, sort: string, window: string, wanted: Post -> bool, id: int)
    requires Valid(db)
    ensures id in IDs(FeedID(), Filter(FeedRows(db, sort, window), FeedKeep(db, wanted))) <==>
      Ranked(db, sort, window, id) && IsPublished(db, id) && BoardVisible(db, db.posts[id].boardID) && wanted(db.posts[id])
  {
    var rows, keep := FeedRows(db, sort, window), FeedKeep(db, wanted);
    ListedIff(rows, FeedID(), keep, id);
    FeedRowsValid(db, sort, window);
    forall r | r in rows && r.postID == id
      ensures keep(r) <==> IsPublished(db, id) && BoardVisible(db, db.posts[id].boardID) && wanted(db.posts[id])
    {
      assert ValidFeedRow(db, r);
    }
  }

  /** The printed total of the feed counts every published post of the newest visible boards, once. */
  lemma FeedTotalCounts(db: Store)
    requires Valid(db)
    ensures FeedTotal(db) == |PublishedOn(db, IDSet(SelectBoardList(db, MAX_PAGE_LIMIT)))|
  {
    var visible := Filter(db.boardIDs, (b: int) => BoardVisible(db, b));
    var boards := SelectBoardList(db, MAX_PAGE_LIMIT);
    BoardIDsOnce(db);
    assert NoDuplicates(boards);
    SumIsCount(db, boards);
  }

  lemma BoardIDsOnce(db: Store)
    requires Valid(db)
    ensures NoDuplicates(Filter(db.boardIDs, (b: int) => BoardVisible(db, b)))
  {
    var id := (b: int) => b;
    var keep := (b: int) => BoardVisible(db, b);
    forall i, j | 0 <= i < j < |db.boardIDs| ensures id(db.boardIDs[i]) != id(db.boardIDs[j]) {
      assert Below(IdKey()(db.boardIDs[j]), IdKey()(db.boardIDs[i]));
    }
    FilterKeepsEachOnce(db.boardIDs, id, keep);
    var kept := Filter(db.boardIDs, keep);
    forall i, j | 0 <= i < j < |kept| ensures kept[i] != kept[j] { assert id(kept[i]) != id(kept[j]); }
  }

  /** The posts on the boards that the feed counts. */
  ghost function OnListed(db: Store): Post -> bool { (p: Post) => p.boardID in IDSet(SelectBoardList(db, MAX_PAGE_LIMIT)) }

  ghost function FeedIDs(db: Store, sort: string, window: string, wanted: Post -> bool): seq<int>
    requires Valid(db)
  {
    IDs(FeedID(), Filter(FeedRows(db, sort, window), FeedKeep(db, wanted)))
  }

  /** The feed's total is at least what its walk shows of the counted boards, and equal exactly when every published post
      of those is ranked. */
  lemma {:induction false} FeedTotalIff(db: Store, sort: string, window: string)
    requires Valid(db) && RanksOnce(db, sort, window)
    ensures
      var ids := FeedIDs(db, sort, window, OnListed(db));
      && FeedTotal(db) >= |ids|
      && (FeedTotal(db) == |ids| <==>
            forall id :: id in PublishedOn(db, IDSet(SelectBoardList(db, MAX_PAGE_LIMIT))) ==> Ranked(db, sort, window, id))
  {
    var ids := FeedIDs(db, sort, window, OnListed(db));
    var counted := PublishedOn(db, IDSet(SelectBoardList(db, MAX_PAGE_LIMIT)));
    FeedTotalCounts(db);
    FilterKeepsEachOnce(FeedRows(db, sort, window), FeedID(), FeedKeep(db, OnListed(db)));
    forall id ensures id in ids <==> id in counted && Ranked(db, sort, window, id) {
      RankedShows(db, sort, window, OnListed(db), id);
      if id in counted { ListedIsVisible(db, db.posts[id].boardID); }
    }
    CountInside(ids, counted);
  }

  lemma {:induction false} ListedIsVisible(db: Store, b: int)
    requires Valid(db) && b in IDSet(SelectBoardList(db, MAX_PAGE_LIMIT))
    ensures BoardVisible(db, b)
  {
    FilterMembers(db.boardIDs, (b: int) => BoardVisible(db, b));
  }

  /** While there are no more visible boards than it lists, the counted boards are all that the feed shows. */
  lemma {:induction false} FeedCountsWhatItShows(db: Store, sort: string, window: string)
    requires Valid(db) && |Filter(db.boardIDs, (b: int) => BoardVisible(db, b))| <= MAX_PAGE_LIMIT
    ensures FeedIDs(db, sort, window, OnListed(db)) == FeedIDs(db, sort, window, Anything())
  {
    forall r | r in FeedRows(db, sort, window) ensures FeedKeep(db, OnListed(db))(r) == FeedKeep(db, Anything())(r) {
      if FeedKeep(db, Anything())(r) { AllVisibleListed(db, db.posts[r.postID].boardID); }
    }
    FilterAgrees(FeedRows(db, sort, window), FeedKeep(db, OnListed(db)), FeedKeep(db, Anything()));
  }

  /** The feed's total against its whole walk. */
  lemma FeedWalkTotalIff(db: Store, sortValue: string, windowValue: string, limit: int, n: nat)
    requires Valid(db) && IsLimit(limit) && |Filter(db.boardIDs, (b: int) => BoardVisible(db, b))| <= MAX_PAGE_LIMIT
    requires NormalizeSortWindow(sortValue, windowValue, "hot").Ok?
    requires var (sort, window) := NormalizeSortWindow(sortValue, windowValue, "hot").value;
      RanksOnce(db, sort, window) && n >= PageCount(|FeedIDs(db, sort, window, Anything())|, limit)
    ensures
      var (sort, window) := NormalizeSortWindow(sortValue, windowValue, "hot").value;
      var shown := Joined(Follow(FeedList(db, sortValue, windowValue, limit), "", n));
      && FeedTotal(db) >= |shown|
      && (FeedTotal(db) == |shown| <==>
            forall id :: id in PublishedOn(db, IDSet(SelectBoardList(db, MAX_PAGE_LIMIT))) ==> Ranked(db, sort, window, id))
  {
    var (sort, window) := NormalizeSortWindow(sortValue, windowValue, "hot").value;
    FeedWalk(db, sortValue, windowValue, limit);
    assert Joined(Follow(FeedList(db, sortValue, windowValue, limit), "", n)) == FeedIDs(db, sort, window, Anything());
    FeedCountsWhatItShows(db, sort, window);
    FeedTotalIff(db, sort, window);
  }

  lemma {:induction false} AllVisibleListed(db: Store, b: int)
    requires Valid(db) && |Filter(db.boardIDs, (b: int) => BoardVisible(db, b))| <= MAX_PAGE_LIMIT
    ensures b in IDSet(SelectBoardList(db, MAX_PAGE_LIMIT)) <==> BoardVisible(db, b)
  {
    FilterMembers(db.boardIDs, (b: int) => BoardVisible(db, b));
  }

  // Searches and ranked tag lists.

  /** The total printed with a ranked list of some wanted ids is at least what the ranking shows of them, and equal exactly
      when every wanted post that is published and visible is ranked. */
  lemma {:induction false} RankedTotalIff(db: Store, sort: string, window: string, wanted: set<int>)
    requires Valid(db) && RanksOnce(db, sort, window)
    ensures
      var ids := IDs(FeedID(), Filter(FeedRows(db, sort, window), FeedKeep(db, Among(wanted))));
      && |VisibleIDs(db, wanted)| >= |ids|
      && (|VisibleIDs(db, wanted)| == |ids| <==> forall id :: id in VisibleIDs(db, wanted) ==> Ranked(db, sort, window, id))
  {
    var ids := IDs(FeedID(), Filter(FeedRows(db, sort, window), FeedKeep(db, Among(wanted))));
    FilterKeepsEachOnce(FeedRows(db, sort, window), FeedID(), FeedKeep(db, Among(wanted)));
    forall id ensures id in ids <==> id in VisibleIDs(db, wanted) && Ranked(db, sort, window, id) {
      RankedShows(db, sort, window, Among(wanted), id);
      assert IsPublished(db, id) ==> db.posts[id].id == id;
    }
    CountInside(ids, VisibleIDs(db, wanted));
  }

  /** Ranked search: the total against the whole walk. */
  lemma RankedSearchTotalIff(db: Store, queryText: string, sortValue: string, windowValue: string, limit: int, n: nat)
    requires Valid(db) && IsLimit(limit) && NormalizeSearchQuery(queryText) != ""
    requires NormalizeSearchSort(sortValue, windowValue).Ok? && NormalizeSearchSort(sortValue, windowValue).value.0 != RELEVANCE
    requires var (sort, window) := NormalizeSearchSort(sortValue, windowValue).value;
      RanksOnce(db, sort, window) && n >= PageCount(|Filter(FeedRows(db, sort, window), FeedKeep(db, Among(Matches(db, queryText))))|, limit)
    ensures
      var (sort, window) := NormalizeSearchSort(sortValue, windowValue).value;
      var total := |VisibleIDs(db, Matches(db, queryText))|;
      var shown := Joined(Follow(SearchList(db, queryText, sortValue, windowValue, limit), "", n));
      total >= |shown| && (total == |shown| <==> forall id :: id in VisibleIDs(db, Matches(db, queryText)) ==> Ranked(db, sort, window, id))
  {
    var (sort, window) := NormalizeSearchSort(sortValue, windowValue).value;
    var ids := IDs(FeedID(), Filter(FeedRows(db, sort, window), FeedKeep(db, Among(Matches(db, queryText)))));
    RankedSearchWalk(db, queryText, sortValue, windowValue, limit);
    assert Joined(Follow(SearchList(db, queryText, sortValue, windowValue, limit), "", n)) == ids;
    RankedTotalIff(db, sort, window, Matches(db, queryText));
  }

  /** A row of the search index that tells the truth about its post: it is shown as the tables would show it. */
  predicate Truthful(db: Store, r: SearchResult) {
    BoardVisible(db, r.post.boardID) <==> IsPublished(db, r.post.id) && BoardVisible(db, db.posts[r.post.id].boardID)
  }

  /** Relevance: the walk shows exactly the counted posts if and only if every answer of the index is truthful; then total
      and walk agree. */
  lemma {:induction false} RelevanceTotalIff(db: Store, queryText: string, sortValue: string, windowValue: string, limit: int, n: nat)
    requires Valid(db) && IsLimit(limit) && NormalizeSearchQuery(queryText) != ""
    requires NormalizeSearchSort(sortValue, windowValue) == Ok((RELEVANCE, ""))
    requires EachOnce(FoundRows(db, NormalizeSearchQuery(queryText)), SearchID())
    requires n >= PageCount(|Filter(FoundRows(db, NormalizeSearchQuery(queryText)), SearchKeep(db))|, limit)
    ensures
      var rows := FoundRows(db, NormalizeSearchQuery(queryText));
      var counted := VisibleIDs(db, Matches(db, queryText));
      var shown := Joined(Follow(SearchList(db, queryText, sortValue, windowValue, limit), "", n));
      && ((forall id :: id in shown <==> id in counted) <==> forall r :: r in rows ==> Truthful(db, r))
      && ((forall r :: r in rows ==> Truthful(db, r)) ==> |counted| == |shown|)
  {
    var rows, counted := FoundRows(db, NormalizeSearchQuery(queryText)), VisibleIDs(db, Matches(db, queryText));
    var shown := IDs(SearchID(), Filter(rows, SearchKeep(db)));
    RelevanceWalk(db, queryText, sortValue, windowValue, limit);
    assert Joined(Follow(SearchList(db, queryText, sortValue, windowValue, limit), "", n)) == shown;
    FilterKeepsEachOnce(rows, SearchID(), SearchKeep(db));
    forall r | r in rows ensures (r.post.id in shown <==> BoardVisible(db, r.post.boardID)) && (r.post.id in counted <==> CountedAs(db, r.post.id)) {
      RowShown(db, rows, r);
      IdOfRow(rows, r);
    }
    forall id | id in shown || id in counted ensures exists r :: r in rows && r.post.id == id {
      RowOfId(db, rows, id);
    }
    if forall r :: r in rows ==> Truthful(db, r) {
      forall id ensures id in shown <==> id in counted {
        if id in shown || id in counted { var r :| r in rows && r.post.id == id; }
      }
      SizeOfList(shown, counted);
    }
  }

  predicate CountedAs(db: Store, id: int) { IsPublished(db, id) && BoardVisible(db, db.posts[id].boardID) }

  lemma IdOfRow(rows: seq<SearchResult>, r: SearchResult)
    requires r in rows
    ensures r.post.id in IDSet(SearchIDs(rows))
  {
    var i :| 0 <= i < |rows| && rows[i] == r;
    assert SearchIDs(rows)[i] == r.post.id;
  }

  lemma {:induction false} RowShown(db: Store, rows: seq<SearchResult>, r: SearchResult)
    requires EachOnce(rows, SearchID()) && r in rows
    ensures r.post.id in IDs(SearchID(), Filter(rows, SearchKeep(db))) <==> BoardVisible(db, r.post.boardID)
  {
    ListedIff(rows, SearchID(), SearchKeep(db), r.post.id);
    forall q | q in rows && q.post.id == r.post.id ensures q == r {
      var i :| 0 <= i < |rows| && rows[i] == q;
      var j :| 0 <= j < |rows| && rows[j] == r;
      assert SearchID()(rows[i]) == SearchID()(rows[j]);
    }
  }

  lemma {:induction false} RowOfId(db: Store, rows: seq<SearchResult>, id: int)
    requires id in IDs(SearchID(), Filter(rows, SearchKeep(db))) || id in VisibleIDs(db, IDSet(SearchIDs(rows)))
    ensures exists r :: r in rows && r.post.id == id
  {
    if id in IDs(SearchID(), Filter(rows, SearchKeep(db))) {
      ListedIff(rows, SearchID(), SearchKeep(db), id);
    } else {
      var i :| 0 <= i < |SearchIDs(rows)| && SearchIDs(rows)[i] == id;
      assert rows[i] in rows;
    }
  }
}
