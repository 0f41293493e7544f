/** What a reader sees who follows the cursors of each list: the theorems over whole walks. */
module ListWalks {
  import opened Text
  import opened Lists
  import opened Numerals
  import opened Cursors
  import opened FilteredWalk
  import opened PostStore
  import opened PostQuery
  import opened TagSearchQuery
  import opened PostLists
  import opened Pager
  import Base64Url
  import TagCoordinator

  type Means = (string, Option<Key>) -> bool

  ghost function FeedList(db: Store, sortValue: string, windowValue: string, limit: int): Answer
    requires Valid(db)
  {
    cursor => FeedAnswer(db, sortValue, windowValue, limit, cursor)
  }

  ghost function SearchList(db: Store, queryText: string, sortValue: string, windowValue: string, limit: int): Answer
    requires Valid(db)
  {
    cursor => SearchAnswer(db, queryText, sortValue, windowValue, limit, cursor)
  }

  ghost function TagList(db: Store, tagName: string, sortValue: string, windowValue: string, limit: int): Answer
    requires Valid(db)
  {
    cursor => TagAnswer(db, tagName, sortValue, windowValue, limit, cursor)
  }

  /** A request for the latest posts of a known tag. */
  predicate IsLatestTag(db: Store, tagName: string, sortValue: string, windowValue: string) {
    var name := TagCoordinator.NormalizeTagName(tagName);
    TagCoordinator.IsTagName(name) && name in db.tagIDs && NormalizeSortWindow(sortValue, windowValue, LATEST) == Ok((LATEST, ""))
  }

  function TagOf(db: Store, tagName: string): int
    requires TagCoordinator.NormalizeTagName(tagName) in db.tagIDs
  {
    db.tagIDs[TagCoordinator.NormalizeTagName(tagName)]
  }

  ghost function BoardList(db: Store, boardID: int, sortValue: string, windowValue: string, limit: int): Answer
    requires Valid(db)
  {
    cursor => BoardAnswer(db, boardID, sortValue, windowValue, limit, cursor)
  }

  /** A cursor stands for the key it carries, if its score is a number. */
  function FeedMeans(sort: string, window: string): Means {
    (cursor, from) =>
      && DecodeFeed(sort, window, cursor).Ok?
      && var c := DecodeFeed(sort, window, cursor).value; (c.Some? ==> IsScore(c.value.scoreBits)) && FeedFrom(c) == from
  }

  function SearchMeans(): Means {
    (cursor, from) =>
      && DecodeSearch(RELEVANCE, "", cursor).Ok?
      && var c := DecodeSearch(RELEVANCE, "", cursor).value; (c.Some? ==> IsScore(c.value.scoreBits)) && SearchFrom(c) == from
  }

  function OpaqueMeans(): Means {
    (cursor, from) => DecodeOpaque(cursor).Ok? && IdFrom(DecodeOpaque(cursor).value) == from
  }

  function FeedID(): FeedResult -> int { (r: FeedResult) => r.postID }

  function SearchID(): SearchResult -> int { (r: SearchResult) => r.post.id }

  function PostID(): Post -> int { (p: Post) => p.id }

  /** Printed cursors have no white space around them and are not empty. */
  lemma ArmourIsTrimmed(payload: string)
    requires Base64Url.IsBytes(payload)
    ensures Armour(payload) != "" && TrimSpace(Armour(payload)) == Armour(payload)
  {
    Base64Url.RoundTrip(PREFIX + payload);
  }

  /** Every decoder reads a blank cursor as the start of the list. */
  lemma BlankMeansStart(sort: string, window: string)
    ensures FeedMeans(sort, window)("", None) && SearchMeans()("", None) && OpaqueMeans()("", None)
  {
    assert IsBlank("");
    assert DecodeFeed(sort, window, "") == Ok(None) && FeedFrom(None) == None;
    assert DecodeSearch(RELEVANCE, "", "") == Ok(None) && SearchFrom(None) == None;
    assert DecodeOpaque("") == Ok(0) && IdFrom(0) == None;
  }

  /** A ranked list, whatever it includes, pages as intended. */
  lemma RankedIsPager(db: Store, sort: string, window: string, limit: nat, wanted: Post -> bool, answer: Answer)
    requires Valid(db) && IsField(sort) && IsField(window) && limit >= 1
    requires forall cursor :: answer(cursor) == RankedAnswer(db, sort, window, limit, cursor, wanted)
    ensures IsPager(answer, FeedMeans(sort, window), FeedRows(db, sort, window), FeedKey(sort), FeedKeep(db, wanted), FeedID(), limit)
  {
    var means, rows, key, keep := FeedMeans(sort, window), FeedRows(db, sort, window), FeedKey(sort), FeedKeep(db, wanted);
    FeedRowsValid(db, sort, window);
    BlankMeansStart(sort, window);
    forall cursor, from | means(cursor, from) ensures ServesPage(answer, means, rows, key, keep, FeedID(), limit, cursor, from) {
      assert answer(cursor) == RankedAnswer(db, sort, window, limit, cursor, wanted);
      FeedPageServes(db, sort, window, limit, from, cursor, wanted);
    }
  }

  lemma FeedPageServes(db: Store, sort: string, window: string, limit: nat, from: Option<Key>, text: string, wanted: Post -> bool)
    requires Valid(db) && IsField(sort) && IsField(window) && limit >= 1
    ensures
      var list := FeedPage(db, sort, window, limit, from, text, wanted);
      var page := PageOf(After(FeedRows(db, sort, window), FeedKey(sort), from), FeedKeep(db, wanted), limit);
      && list.postIDs == IDs(FeedID(), page.items) && HasCleanCursor(list)
      && (page.hasMore ==> FeedMeans(sort, window)(list.nextCursor.value, Some(FeedKey(sort)(page.items[limit - 1]))))
  {
    var page := PageOf(After(FeedRows(db, sort, window), FeedKey(sort), from), FeedKeep(db, wanted), limit);
    FeedItemsPrint(db, sort, window, limit, from, wanted);
    if page.hasMore {
      FeedRowsValid(db, sort, window);
      PageItemsAreRows(FeedRows(db, sort, window), FeedKey(sort), from, FeedKeep(db, wanted), limit);
      assert page.items[limit - 1] in FeedRows(db, sort, window);
      var c := FeedCursorOf(sort, window, page.items[limit - 1]);
      FeedRoundTrip(c);
      FeedPayloadIsBytes(c);
      ArmourIsTrimmed(FeedPayload(c));
      FeedCursorKey(sort, window, page.items[limit - 1]);
    }
  }

  lemma SearchPageServes(db: Store, query: string, limit: nat, from: Option<Key>, text: string)
    requires Valid(db) && limit >= 1
    ensures
      var list := SearchPage(db, query, limit, from, text);
      var page := PageOf(After(FoundRows(db, query), SearchKey(), from), SearchKeep(db), limit);
      && list.postIDs == IDs(SearchID(), page.items) && HasCleanCursor(list)
      && (page.hasMore ==> SearchMeans()(list.nextCursor.value, Some(SearchKey()(page.items[limit - 1]))))
  {
    var page := PageOf(After(FoundRows(db, query), SearchKey(), from), SearchKeep(db), limit);
    SearchItemsPrint(db, query, limit, from);
    if page.hasMore {
      FoundRowsValid(db, query);
      PageItemsAreRows(FoundRows(db, query), SearchKey(), from, SearchKeep(db), limit);
      assert page.items[limit - 1] in FoundRows(db, query);
      var c := SearchCursorOf(page.items[limit - 1]);
      SearchRoundTrip(c);
      SearchPayloadIsBytes(c);
      ArmourIsTrimmed(SearchPayload(c));
      SearchCursorKey(page.items[limit - 1]);
    }
  }

  lemma SearchIsPager(db: Store, query: string, limit: nat, answer: Answer)
    requires Valid(db) && limit >= 1
    requires forall cursor :: DecodeSearch(RELEVANCE, "", cursor).Ok? ==>
      answer(cursor) == Ok(SearchPage(db, query, limit, SearchFrom(DecodeSearch(RELEVANCE, "", cursor).value), cursor))
    ensures IsPager(answer, SearchMeans(), FoundRows(db, query), SearchKey(), SearchKeep(db), SearchID(), limit)
  {
    var means, rows, key, keep := SearchMeans(), FoundRows(db, query), SearchKey(), SearchKeep(db);
    FoundRowsValid(db, query);
    BlankMeansStart(RELEVANCE, "");
    forall cursor, from | means(cursor, from) ensures ServesPage(answer, means, rows, key, keep, SearchID(), limit, cursor, from) {
      assert answer(cursor) == Ok(SearchPage(db, query, limit, from, cursor));
      SearchPageServes(db, query, limit, from, cursor);
    }
  }

  /** An id that was printed reads back as the key of its post. */
  lemma OpaqueCursorMeans(id: int)
    requires IsID(id)
    ensures EncodeOpaque(id) != "" && TrimSpace(EncodeOpaque(id)) == EncodeOpaque(id)
    ensures OpaqueMeans()(EncodeOpaque(id), Some(Key(0, 0, id)))
  {
    OpaqueRoundTrip(id);
    IntIsField(id);
    ArmourIsTrimmed(PrintInt(id));
    assert IdFrom(id) == Some(Key(0, 0, id));
    assert DecodeOpaque(EncodeOpaque(id)).value == id;
  }

  lemma TagIsPager(db: Store, tagName: string, sortValue: string, windowValue: string, limit: int)
    requires Valid(db) && IsLimit(limit) && IsLatestTag(db, tagName, sortValue, windowValue)
    ensures IsPager(TagList(db, tagName, sortValue, windowValue, limit), OpaqueMeans(), TagRows(db, TagOf(db, tagName)), PostKey(), PostKeep(db), PostID(), limit)
  {
    var answer, means, rows := TagList(db, tagName, sortValue, windowValue, limit), OpaqueMeans(), TagRows(db, TagOf(db, tagName));
    var key, keep := PostKey(), PostKeep(db);
    TagRowsValid(db, TagOf(db, tagName));
    BlankMeansStart(LATEST, "");
    forall cursor, from | means(cursor, from) ensures ServesPage(answer, means, rows, key, keep, PostID(), limit, cursor, from) {
      assert answer(cursor) == Ok(TagPage(db, TagOf(db, tagName), limit, from, cursor));
      TagPageServes(db, TagOf(db, tagName), limit, from, cursor);
    }
  }

  lemma TagPageServes(db: Store, tagID: int, limit: nat, from: Option<Key>, text: string)
    requires Valid(db) && limit >= 1
    ensures
      var list := TagPage(db, tagID, limit, from, text);
      var page := PageOf(After(TagRows(db, tagID), PostKey(), from), PostKeep(db), limit);
      && list.postIDs == IDs(PostID(), page.items) && HasCleanCursor(list)
      && (page.hasMore ==> OpaqueMeans()(list.nextCursor.value, Some(PostKey()(page.items[limit - 1]))))
  {
    var page := PageOf(After(TagRows(db, tagID), PostKey(), from), PostKeep(db), limit);
    PageItemsAreRows(TagRows(db, tagID), PostKey(), from, PostKeep(db), limit);
    if page.hasMore {
      TagRowsValid(db, tagID);
      assert page.items[limit - 1] in page.items;
      OpaqueCursorMeans(page.items[limit - 1].id);
    }
  }

  lemma BoardRowsValid(db: Store, boardID: int)
    requires Valid(db)
    ensures Descending(BoardRows(db, boardID), PostKey())
    ensures forall p :: p in BoardRows(db, boardID) ==> IsID(p.id)
  {
    PublishedDescends(db, db.newest);
    FilterDescends(PublishedOf(db, db.newest), PostKey(), (p: Post) => p.boardID == boardID);
    FilterMembers(PublishedOf(db, db.newest), (p: Post) => p.boardID == boardID);
  }

  /** Filtering keeps the order. */
  lemma {:induction false} FilterDescends<T>(s: seq<T>, key: T -> Key, keep: T -> bool)
    requires Descending(s, key)
    ensures Descending(Filter(s, keep), key)
  {
    if s != [] {
      var init := s[..|s| - 1];
      FilterDescends(init, key, keep);
      FilterMembers(init, keep);
      var head, all := Filter(init, keep), Filter(s, keep);
      forall i, j | 0 <= i < j < |all| ensures Below(key(all[j]), key(all[i])) {
        if j == |head| {
          assert head[i] in head;
          var k :| 0 <= k < |init| && init[k] == head[i];
          assert Below(key(s[|s| - 1]), key(s[k]));
        }
      }
    }
  }

  function Every(): Post -> bool { (p: Post) => true }

  /** Cutting one fetch is paging without a filter. */
  lemma OneFetchIsPage(db: Store, boardID: int, limit: nat, lastID: int, text: string)
    requires Valid(db) && limit >= 1
    ensures
      var list := LoadCursorListPage(limit, text, SelectPosts(db, boardID, limit + 1, lastID));
      var page := PageOf(After(BoardRows(db, boardID), PostKey(), IdFrom(lastID)), Every(), limit);
      && list.postIDs == IDs(PostID(), page.items) && list.hasMore == page.hasMore && HasCleanCursor(list)
      && (page.hasMore ==> OpaqueMeans()(list.nextCursor.value, Some(PostKey()(page.items[limit - 1]))))
  {
    var rest := After(BoardRows(db, boardID), PostKey(), IdFrom(lastID));
    BoardRowsValid(db, boardID);
    FilterAll(rest, Every());
    AfterMembers(BoardRows(db, boardID), PostKey(), IdFrom(lastID));
    var page := PageOf(rest, Every(), limit);
    if page.hasMore {
      assert Take(rest, limit + 1)[..limit] == page.items;
      assert page.items[limit - 1] in rest;
      OpaqueCursorMeans(page.items[limit - 1].id);
    } else {
      assert Take(rest, limit + 1) == page.items;
    }
  }

  /** The latest list of a visible board pages as intended; it filters nothing. */
  lemma BoardIsPager(db: Store, boardID: int, sortValue: string, windowValue: string, limit: int)
    requires Valid(db) && IsLimit(limit) && BoardVisible(db, boardID)
    requires NormalizeSortWindow(sortValue, windowValue, LATEST) == Ok((LATEST, ""))
    ensures IsPager(BoardList(db, boardID, sortValue, windowValue, limit), OpaqueMeans(), BoardRows(db, boardID), PostKey(), Every(), PostID(), limit)
  {
    var answer := BoardList(db, boardID, sortValue, windowValue, limit);
    var means, rows, key, keep := OpaqueMeans(), BoardRows(db, boardID), PostKey(), Every();
    BoardRowsValid(db, boardID);
    BlankMeansStart(LATEST, "");
    forall cursor, from | means(cursor, from) ensures ServesPage(answer, means, rows, key, keep, PostID(), limit, cursor, from) {
      OneFetchIsPage(db, boardID, limit, DecodeOpaque(cursor).value, cursor);
    }
  }

  /** What it means that following a list from a blank cursor shows exactly `ids`, in pages of `limit`. */
  ghost predicate WalkShows(answer: Answer, ids: seq<int>, limit: nat)
    requires limit >= 1
  {
    forall n: nat {:trigger Follow(answer, "", n)} ::
      var pages := Follow(answer, "", n);
      && |pages| == (if n < PageCount(|ids|, limit) then n else PageCount(|ids|, limit))
      && (forall i :: 0 <= i < |pages| ==> IsPage(pages[i], ids, limit, i))
      && (n >= PageCount(|ids|, limit) ==> Joined(pages) == ids)
  }

  lemma PagerWalks<T(!new)>(answer: Answer, means: Means, rows: seq<T>, key: T -> Key, keep: T -> bool, id: T -> int, limit: nat)
    requires IsPager(answer, means, rows, key, keep, id, limit)
    ensures WalkShows(answer, IDs(id, Filter(rows, keep)), limit)
  {
    forall n: nat ensures
      var ids := IDs(id, Filter(rows, keep));
      var pages := Follow(answer, "", n);
      && |pages| == (if n < PageCount(|ids|, limit) then n else PageCount(|ids|, limit))
      && (forall i :: 0 <= i < |pages| ==> IsPage(pages[i], ids, limit, i))
      && (n >= PageCount(|ids|, limit) ==> Joined(pages) == ids)
    {
      FollowShowsAll(answer, means, rows, key, keep, id, limit, n);
    }
  }

  /** The feed shows every ranked post that is found on a visible board, in ranking order. */
  lemma FeedWalk(db: Store, sortValue: string, windowValue: string, limit: int)
    requires Valid(db) && IsLimit(limit) && NormalizeSortWindow(sortValue, windowValue, "hot").Ok?
    ensures
      var (sort, window) := NormalizeSortWindow(sortValue, windowValue, "hot").value;
      WalkShows(FeedList(db, sortValue, windowValue, limit),
                IDs(FeedID(), Filter(FeedRows(db, sort, window), FeedKeep(db, Anything()))), limit)
  {
    NormalizedAreFields(sortValue, windowValue, "hot");
    var (sort, window) := NormalizeSortWindow(sortValue, windowValue, "hot").value;
    var answer := FeedList(db, sortValue, windowValue, limit);
    RankedIsPager(db, sort, window, limit, Anything(), answer);
    PagerWalks(answer, FeedMeans(sort, window), FeedRows(db, sort, window), FeedKey(sort), FeedKeep(db, Anything()), FeedID(), limit);
  }

  /** What a ranked search wants: the matches of the query. */
  function Matches(db: Store, queryText: string): set<int> { IDSet(SearchIDs(FoundRows(db, NormalizeSearchQuery(queryText)))) }

  /** A ranked search shows every ranked post that is found, visible and among the matches of the query. */
  lemma RankedSearchWalk(db: Store, queryText: string, sortValue: string, windowValue: string, limit: int)
    requires Valid(db) && IsLimit(limit) && NormalizeSearchQuery(queryText) != ""
    requires NormalizeSearchSort(sortValue, windowValue).Ok? && NormalizeSearchSort(sortValue, windowValue).value.0 != RELEVANCE
    ensures
      var (sort, window) := NormalizeSearchSort(sortValue, windowValue).value;
      WalkShows(SearchList(db, queryText, sortValue, windowValue, limit),
                IDs(FeedID(), Filter(FeedRows(db, sort, window), FeedKeep(db, Among(Matches(db, queryText))))), limit)
  {
    NormalizedAreFields(sortValue, windowValue, LATEST);
    var (sort, window) := NormalizeSearchSort(sortValue, windowValue).value;
    var wanted := Among(Matches(db, queryText));
    var answer := SearchList(db, queryText, sortValue, windowValue, limit);
    RankedIsPager(db, sort, window, limit, wanted, answer);
    PagerWalks(answer, FeedMeans(sort, window), FeedRows(db, sort, window), FeedKey(sort), FeedKeep(db, wanted), FeedID(), limit);
  }

  /** A search by relevance shows every answer of the index on a visible board, best score first. */
  lemma RelevanceWalk(db: Store, queryText: string, sortValue: string, windowValue: string, limit: int)
    requires Valid(db) && IsLimit(limit) && NormalizeSearchQuery(queryText) != ""
    requires NormalizeSearchSort(sortValue, windowValue) == Ok((RELEVANCE, ""))
    ensures WalkShows(SearchList(db, queryText, sortValue, windowValue, limit),
                      IDs(SearchID(), Filter(FoundRows(db, NormalizeSearchQuery(queryText)), SearchKeep(db))), limit)
  {
    var answer, query := SearchList(db, queryText, sortValue, windowValue, limit), NormalizeSearchQuery(queryText);
    SearchIsPager(db, query, limit, answer);
    PagerWalks(answer, SearchMeans(), FoundRows(db, query), SearchKey(), SearchKeep(db), SearchID(), limit);
  }

  /** The latest list of a visible board shows its published posts, newest first. */
  lemma BoardWalk(db: Store, boardID: int, sortValue: string, windowValue: string, limit: int)
    requires Valid(db) && IsLimit(limit) && BoardVisible(db, boardID)
    requires NormalizeSortWindow(sortValue, windowValue, LATEST) == Ok((LATEST, ""))
    ensures WalkShows(BoardList(db, boardID, sortValue, windowValue, limit), IDs(PostID(), BoardRows(db, boardID)), limit)
  {
    BoardIsPager(db, boardID, sortValue, windowValue, limit);
    FilterAll(BoardRows(db, boardID), Every());
    PagerWalks(BoardList(db, boardID, sortValue, windowValue, limit), OpaqueMeans(), BoardRows(db, boardID), PostKey(), Every(), PostID(), limit);
  }

  /** The latest list of a tag shows its published posts on visible boards, newest first. */
  lemma TagWalk(db: Store, tagName: string, sortValue: string, windowValue: string, limit: int)
    requires Valid(db) && IsLimit(limit) && IsLatestTag(db, tagName, sortValue, windowValue)
    ensures WalkShows(TagList(db, tagName, sortValue, windowValue, limit), IDs(PostID(), Filter(TagRows(db, TagOf(db, tagName)), PostKeep(db))), limit)
  {
    TagIsPager(db, tagName, sortValue, windowValue, limit);
    PagerWalks(TagList(db, tagName, sortValue, windowValue, limit), OpaqueMeans(), TagRows(db, TagOf(db, tagName)), PostKey(), PostKeep(db), PostID(), limit);
  }

  lemma DescendingHasNoDuplicates(posts: seq<Post>)
    requires Descending(posts, PostKey())
    ensures NoDuplicates(IDs(PostID(), posts))
  {
    forall i, j | 0 <= i < j < |posts| ensures posts[i].id != posts[j].id { assert Below(PostKey()(posts[j]), PostKey()(posts[i])); }
  }

  /** A published post is a row of the tag exactly when the tag names it. */
  lemma {:induction false} PublishedOfMembers(db: Store, ids: seq<int>)
    requires Valid(db)
    ensures forall id :: id in ids && IsPublished(db, id) ==> db.posts[id] in PublishedOf(db, ids)
  {
    if ids != [] {
      PublishedOfMembers(db, ids[..|ids| - 1]);
      assert ids == ids[..|ids| - 1] + [ids[|ids| - 1]];
    }
  }

  /** The ids a tag list shows, met by two routes: filtering its rows, or sieving the set of its relations. */
  lemma ShownAreVisible(db: Store, tagID: int, ids: seq<int>)
    requires Valid(db) && ids == IDs(PostID(), Filter(TagRows(db, tagID), PostKeep(db)))
    ensures NoDuplicates(ids) && forall id :: id in ids <==> id in VisibleIDs(db, IDSet(TagIDs(db, tagID)))
  {
    var rows := TagRows(db, tagID);
    var shown := Filter(rows, PostKeep(db));
    TagRowsValid(db, tagID);
    FilterDescends(rows, PostKey(), PostKeep(db));
    DescendingHasNoDuplicates(shown);
    FilterMembers(rows, PostKeep(db));
    PublishedOfMembers(db, TagIDs(db, tagID));
    var visible := VisibleIDs(db, IDSet(TagIDs(db, tagID)));
    forall id | id in ids ensures id in visible {
      var i :| 0 <= i < |ids| && ids[i] == id;
      assert shown[i] in shown && shown[i] in rows;
    }
    forall id | id in visible ensures id in ids {
      assert db.posts[id] in shown;
      var i :| 0 <= i < |shown| && shown[i] == db.posts[id];
      assert ids[i] == id;
    }
  }

  /** The total of the latest tag list, counted over a set of ids, is the number of posts its walk shows. */
  lemma TagTotalIsWalkLength(db: Store, tagName: string, sortValue: string, windowValue: string, limit: int, n: nat)
    requires Valid(db) && IsLimit(limit) && IsLatestTag(db, tagName, sortValue, windowValue)
    requires n >= PageCount(|Filter(TagRows(db, TagOf(db, tagName)), PostKeep(db))|, limit)
    ensures |VisibleIDs(db, IDSet(TagIDs(db, TagOf(db, tagName))))| == |Joined(Follow(TagList(db, tagName, sortValue, windowValue, limit), "", n))|
  {
    var tagID := TagOf(db, tagName);
    var ids := IDs(PostID(), Filter(TagRows(db, tagID), PostKeep(db)));
    TagWalk(db, tagName, sortValue, windowValue, limit);
    assert Joined(Follow(TagList(db, tagName, sortValue, windowValue, limit), "", n)) == ids;
    ShownAreVisible(db, tagID, ids);
    SizeOfList(ids, VisibleIDs(db, IDSet(TagIDs(db, tagID))));
  }

  /** A ranked board list answers no cursor but a blank one: the id decoder or the feed decoder always refuses. */
  lemma RankedBoardRefusesCursors(db: Store, boardID: int, sortValue: string, windowValue: string, limit: int, cursor: string)
    requires Valid(db) && IsLimit(limit) && BoardVisible(db, boardID) && !IsBlank(cursor)
    requires NormalizeSortWindow(sortValue, windowValue, LATEST).Ok? && NormalizeSortWindow(sortValue, windowValue, LATEST).value.0 != LATEST
    ensures BoardAnswer(db, boardID, sortValue, windowValue, limit, cursor) == Err(InvalidInput)
  {
    var (sort, window) := NormalizeSortWindow(sortValue, windowValue, LATEST).value;
    DecodersAreDisjoint(cursor, sort, window, sort, window);
  }

  /** A ranked list that refuses every cursor but a blank one shows its first page only, so all of it exactly when it fits there. */
  lemma OnePageOnly(db: Store, sort: string, window: string, limit: int, wanted: Post -> bool, answer: Answer, n: nat)
    requires Valid(db) && IsField(sort) && IsField(window) && limit >= 1 && n >= 1
    requires answer("") == RankedAnswer(db, sort, window, limit, "", wanted)
    requires forall cursor :: !IsBlank(cursor) ==> answer(cursor).Err?
    ensures
      var ids := IDs(FeedID(), Filter(FeedRows(db, sort, window), FeedKeep(db, wanted)));
      && answer("").Ok? && answer("").value.postIDs == Take(ids, limit)
      && Joined(Follow(answer, "", n)) == Take(ids, limit)
      && (Joined(Follow(answer, "", n)) == ids <==> |ids| <= limit)
  {
    var first := FeedPage(db, sort, window, limit, None, "", wanted);
    BlankMeansStart(sort, window);
    assert answer("") == Ok(first);
    FeedPageServes(db, sort, window, limit, None, "", wanted);
    if first.hasMore {
      var next := first.nextCursor.value;
      assert !IsBlank(next);
      assert Follow(answer, next, n - 1) == [];
    }
    assert Follow(answer, "", n) == [first];
    assert Joined([first]) == first.postIDs;
    assert first.postIDs == Take(IDs(FeedID(), Filter(FeedRows(db, sort, window), FeedKeep(db, wanted))), limit);
  }

  /** So following a ranked board list shows all of it exactly when it fits on one page. */
  lemma RankedBoardWalkIsComplete(db: Store, boardID: int, sortValue: string, windowValue: string, limit: int, n: nat)
    requires Valid(db) && IsLimit(limit) && BoardVisible(db, boardID) && n >= 1
    requires NormalizeSortWindow(sortValue, windowValue, LATEST).Ok? && NormalizeSortWindow(sortValue, windowValue, LATEST).value.0 != LATEST
    ensures
      var (sort, window) := NormalizeSortWindow(sortValue, windowValue, LATEST).value;
      var ids := IDs(FeedID(), Filter(FeedRows(db, sort, window), FeedKeep(db, OnBoard(boardID))));
      && Joined(Follow(BoardList(db, boardID, sortValue, windowValue, limit), "", n)) == Take(ids, limit)
      && (Joined(Follow(BoardList(db, boardID, sortValue, windowValue, limit), "", n)) == ids <==> |ids| <= limit)
  {
    NormalizedAreFields(sortValue, windowValue, LATEST);
    var (sort, window) := NormalizeSortWindow(sortValue, windowValue, LATEST).value;
    var answer := BoardList(db, boardID, sortValue, windowValue, limit);
    forall cursor | !IsBlank(cursor) ensures answer(cursor).Err? {
      RankedBoardRefusesCursors(db, boardID, sortValue, windowValue, limit, cursor);
    }
    OnePageOnly(db, sort, window, limit, OnBoard(boardID), answer, n);
  }

  /** A ranked tag list answers no cursor but a blank one. */
  lemma RankedTagRefusesCursors(db: Store, tagName: string, sortValue: string, windowValue: string, limit: int, cursor: string)
    requires Valid(db) && IsLimit(limit) && !IsBlank(cursor)
    requires NormalizeSortWindow(sortValue, windowValue, LATEST).Ok? && NormalizeSortWindow(sortValue, windowValue, LATEST).value.0 != LATEST
    ensures TagAnswer(db, tagName, sortValue, windowValue, limit, cursor).Err?
  {
    var (sort, window) := NormalizeSortWindow(sortValue, windowValue, LATEST).value;
    DecodersAreDisjoint(cursor, sort, window, sort, window);
  }
}
