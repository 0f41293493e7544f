/** Numbered web pages on top of cursor pages. */
module WebPagination {
  import opened Text
  import opened Lists
  import opened FilteredWalk
  import opened PostStore
  import opened PostQuery
  import opened TagSearchQuery
  import opened Pager
  import opened ListWalks

  const MAX_PAGE := 1000
  const WINDOW_RADIUS := 2
  const MAX_VISIBLE := 5

  function ClampPage(page: int): (p: int)
    ensures 1 <= p <= 1000 && (1 <= page <= 1000 ==> p == page) && (page < 1 ==> p == 1) && (page > 1000 ==> p == 1000)
  {
    if page < 1 then 1 else if page > MAX_PAGE then MAX_PAGE else page
  }

  /** Pages of a counted list: zero for an empty one, and never past the largest page number. */
  function TotalPages(total: int, limit: int): nat {
    if total <= 0 || limit <= 0 then 0
    else
      var pages := (total + limit - 1) / limit;
      if pages > MAX_PAGE then MAX_PAGE else pages
  }

  /** The number in 1..last nearest to a page number. */
  function Nearest(page: int, last: int): int
    requires last >= 1
  {
    if page < 1 then 1 else if page > last then last else page
  }

  /**
   A window of page numbers: consecutive, inside 1..maxPage, as many as fit, and with the page in the middle
   unless an end of the range is too close for that.
   */
  ghost predicate IsWindow(pages: seq<int>, p: int, maxPage: int) {
    && |pages| == (if maxPage < 5 then maxPage else 5) && |pages| >= 1
    && (forall i :: 0 <= i < |pages| ==> pages[i] == pages[0] + i)
    && 1 <= pages[0] && pages[0] + |pages| - 1 <= maxPage
    && pages[0] <= p < pages[0] + |pages|
    && var half := |pages| / 2;
       pages[0] == p - half || (pages[0] == 1 && p - half < 1) || (pages[0] + |pages| - 1 == maxPage && p - half + |pages| - 1 > maxPage)
  }

  method VisiblePageWindow(page: int, maxPage: int) returns (pages: seq<int>)
    ensures maxPage < 1 ==> pages == []
    ensures maxPage >= 1 ==> IsWindow(pages, Nearest(page, if maxPage < 1000 then maxPage else 1000), maxPage)
  {
    if maxPage < 1 { return []; }
    var p := ClampPage(page);
    if p > maxPage { p := maxPage; }
    var size := MAX_VISIBLE;
    if maxPage < size { size := maxPage; }
    var start := p - size / 2;
    if start < 1 { start := 1; }
    var end := start + size - 1;
    if end > maxPage {
      end := maxPage;
      start := end - size + 1;
    }
    pages := [];
    var current := start;
    while current <= end
      invariant start <= current <= end + 1
      invariant |pages| == current - start && forall i :: 0 <= i < |pages| ==> pages[i] == start + i
    {
      pages := pages + [current];
      current := current + 1;
    }
  }

  datatype Pagination = Pagination(page: int, prev: int, next: int, totalPages: int, pages: seq<int>)

  /** Page links: a previous or next number of zero means no link. */
  method BuildPagination(page: int, hasMore: bool, totalPages: int) returns (r: Pagination)
    ensures totalPages > 0 ==> LinksKnown(r, page, if totalPages > 1000 then 1000 else totalPages)
    ensures totalPages <= 0 ==> LinksOpen(r, Nearest(page, 1000), hasMore)
  {
    var p := ClampPage(page);
    if totalPages > 0 {
      var maxPage := totalPages;
      if maxPage > MAX_PAGE { maxPage := MAX_PAGE; }
      if p > maxPage { p := maxPage; }
      var pages := VisiblePageWindow(p, maxPage);
      NeighboursInWindow(p, maxPage, pages);
      return Pagination(p, if p > 1 then p - 1 else 0, if p < maxPage then p + 1 else 0, maxPage, pages);
    }
    var end := LastOpen(p, hasMore);
    var pages := VisiblePageWindow(p, end);
    NeighboursInWindow(p, end, pages);
    r := Pagination(p, if p > 1 then p - 1 else 0, if hasMore && p < MAX_PAGE then p + 1 else 0, 0, pages);
  }

  /** With a known last page: the window of the page, and its neighbours in it or none at the ends. */
  ghost predicate LinksKnown(r: Pagination, page: int, maxPage: int)
    requires maxPage >= 1
  {
    && r.page == Nearest(page, maxPage) && r.totalPages == maxPage
    && r.page in r.pages && IsWindow(r.pages, r.page, maxPage)
    && ((r.prev in r.pages && r.prev == r.page - 1) || (r.prev == 0 && r.page == 1))
    && ((r.next in r.pages && r.next == r.page + 1) || (r.next == 0 && r.page == maxPage))
  }

  /** The last number offered when the last page is not known. */
  function LastOpen(p: int, hasMore: bool): (last: int)
    ensures p <= 1000 ==> last == if !hasMore then p else if p < 998 then p + 2 else 1000
  {
    if !hasMore then p else if p + WINDOW_RADIUS > MAX_PAGE then MAX_PAGE else p + WINDOW_RADIUS
  }

  /** Without a known last page: a window that ends at the page, or a little later when more follows. */
  ghost predicate LinksOpen(r: Pagination, p: int, hasMore: bool) {
    && r.page == p && r.totalPages == 0 && r.page in r.pages && IsWindow(r.pages, p, LastOpen(p, hasMore))
    && r.prev == p - 1 && r.next == (if hasMore && p < 1000 then p + 1 else 0)
    && (r.next != 0 ==> r.next in r.pages)
  }

  /** The window of a page holds the page and its neighbours. */
  lemma NeighboursInWindow(p: int, maxPage: int, pages: seq<int>)
    requires 1 <= p <= maxPage && IsWindow(pages, p, maxPage)
    ensures p in pages && (p < maxPage ==> p + 1 in pages) && (p > 1 ==> p - 1 in pages)
  {
    var i := p - pages[0];
    assert pages[i] == p;
    if p < maxPage { assert pages[i + 1] == p + 1; }
    if p > 1 { assert pages[i - 1] == p - 1; }
  }

  /** What fetching page by page returns: the page numbered `at` or the last one before it, its number, and whether more follow. */
  function Sequential<T, Token>(fetch: Token -> Result<(T, Token, bool)>, token: Token, at: nat, target: nat): Result<(T, nat, bool)>
    requires at <= target
    decreases target - at
  {
    match fetch(token)
    case Err(e) => Err(e)
    case Ok((value, next, more)) => if at == target || !more then Ok((value, at, more)) else Sequential(fetch, next, at + 1, target)
  }

  /** Walks the tokens from the first page up to the page asked for. */
  method LoadSequentialPage<T, Token>(page: int, initial: Token, fetch: Token -> Result<(T, Token, bool)>) returns (r: Result<(T, nat, bool)>)
    ensures r == Sequential(fetch, initial, 1, Nearest(page, 1000))
  {
    var target := ClampPage(page);
    var token := initial;
    var currentPage := 1;
    while true
      invariant 1 <= currentPage <= target
      invariant Sequential(fetch, initial, 1, target) == Sequential(fetch, token, currentPage, target)
      decreases target - currentPage
    {
      var fetched := fetch(token);
      if fetched.Err? { return Err(fetched.error); }
      var (value, next, more) := fetched.value;
      if currentPage == target || !more { return Ok((value, currentPage, more)); }
      token := next;
      currentPage := currentPage + 1;
    }
  }

  /** How the page handlers fetch: the trimmed next cursor, and more only when there is one. */
  function FetchPage(answer: Answer): string -> Result<(PostList, string, bool)> {
    (cursor: string) =>
      match answer(cursor)
      case Err(e) => Err(e)
      case Ok(list) =>
        var next := if list.nextCursor.Some? then TrimSpace(list.nextCursor.value) else "";
        Ok((list, next, list.hasMore && next != ""))
  }

  /** One fetch of a page with a clean cursor. */
  lemma FetchStep(answer: Answer, cursor: string, list: PostList)
    requires answer(cursor) == Ok(list) && HasCleanCursor(list)
    ensures FetchPage(answer)(cursor) == Ok((list, if list.hasMore then list.nextCursor.value else "", list.hasMore))
  {
  }

  lemma FollowStep(answer: Answer, cursor: string, n: nat)
    requires n > 0 && |Follow(answer, cursor, n)| > 0
    ensures
      var pages := Follow(answer, cursor, n);
      && answer(cursor) == Ok(pages[0])
      && (pages[0].hasMore && HasCleanCursor(pages[0]) ==> pages[1..] == Follow(answer, pages[0].nextCursor.value, n - 1))
  {
  }

  /** Fetching up to page `target` returns the last page of the walk cut off there. */
  lemma {:induction false} SequentialFollows(answer: Answer, cursor: string, at: nat, target: nat, pages: seq<PostList>)
    requires at <= target && pages == Follow(answer, cursor, target - at + 1)
    requires forall i :: 0 <= i < |pages| ==> HasCleanCursor(pages[i]) && (pages[i].hasMore <== i < |pages| - 1)
    requires |pages| >= 1 && (|pages| < target - at + 1 ==> !pages[|pages| - 1].hasMore)
    ensures
      var last := pages[|pages| - 1];
      Sequential(FetchPage(answer), cursor, at, target) == Ok((last, at + |pages| - 1, last.hasMore))
    decreases target - at
  {
    var list := pages[0];
    FollowStep(answer, cursor, target - at + 1);
    FetchStep(answer, cursor, list);
    if at < target && list.hasMore {
      var next := list.nextCursor.value;
      SequentialFollows(answer, next, at + 1, target, pages[1..]);
      assert Sequential(FetchPage(answer), cursor, at, target) == Sequential(FetchPage(answer), next, at + 1, target);
    } else {
      assert |pages| == 1;
    }
  }

  /** How many pages a list of `total` items has: an empty one has one. */
  function PagesOf(total: nat, limit: nat): nat
    requires limit >= 1
  {
    if total == 0 then 1 else (total + limit - 1) / limit
  }

  lemma PagesOfIs(total: nat, limit: nat)
    requires limit >= 1
    ensures PageCount(total, limit) == PagesOf(total, limit) >= 1
  {
    PageCountIsCeiling(total, limit);
    if total > 0 { CeilingIsPositive(total, limit); }
  }

  /** The page a visitor lands on: the nearest there is to the one asked for, and none past 1000. */
  function LandingPage(page: int, total: nat, limit: nat): (p: nat)
    requires limit >= 1
    ensures 1 <= p <= 1000 && p <= PagesOf(total, limit)
    ensures 1 <= page <= 1000 && page <= PagesOf(total, limit) ==> p == page
    ensures page < 1 ==> p == 1
    ensures page > 1000 || page > PagesOf(total, limit) ==> p == if PagesOf(total, limit) < 1000 then PagesOf(total, limit) else 1000
  {
    PagesOfIs(total, limit);
    Nearest(page, if PagesOf(total, limit) < 1000 then PagesOf(total, limit) else 1000)
  }

  lemma SequentialSlices(answer: Answer, ids: seq<int>, limit: nat, n: nat, pages: seq<PostList>)
    requires limit >= 1 && n >= 1 && pages == Follow(answer, "", n)
    requires |pages| == (if n < PageCount(|ids|, limit) then n else PageCount(|ids|, limit))
    requires forall i :: 0 <= i < |pages| ==> IsPage(pages[i], ids, limit, i)
    ensures
      var p := |pages|;
      p >= 1 && Sequential(FetchPage(answer), "", 1, n) == Ok((pages[p - 1], p, p < PageCount(|ids|, limit)))
      && pages[p - 1].postIDs == Slice(ids, limit, p - 1)
  {
    assert IsPage(pages[|pages| - 1], ids, limit, |pages| - 1);
    SequentialFollows(answer, "", 1, n, pages);
  }

  /** The items of page p, counted from one. */
  function Part(ids: seq<int>, limit: nat, p: nat): seq<int>
    requires p >= 1
  {
    var from, to := (p - 1) * limit, p * limit;
    if |ids| <= from then [] else if |ids| <= to then ids[from..] else ids[from..to]
  }

  lemma PartIsSlice(ids: seq<int>, limit: nat, p: nat)
    requires p >= 1
    ensures Part(ids, limit, p) == Slice(ids, limit, p - 1)
  {
    assert p * limit == (p - 1) * limit + limit;
  }

  /** What the handler gets for a numbered page, token by token. */
  function Numbered(answer: Answer, page: int): Result<(PostList, nat, bool)> { Sequential(FetchPage(answer), "", 1, Nearest(page, 1000)) }

  /** A numbered page of a list whose cursors work is a plain part of what the list shows: the page asked for, or the nearest
      that there is. */
  lemma WebPageIsSlice(answer: Answer, ids: seq<int>, limit: nat, page: int)
    requires limit >= 1 && WalkShows(answer, ids, limit)
    ensures
      var p := LandingPage(page, |ids|, limit);
      var r := Numbered(answer, page);
      && r.Ok? && r.value.1 == p && r.value.0.postIDs == Part(ids, limit, p)
      && r.value.2 == (p < PagesOf(|ids|, limit))
  {
    var n := Nearest(page, 1000);
    PagesOfIs(|ids|, limit);
    SequentialSlices(answer, ids, limit, n, Follow(answer, "", n));
    PartIsSlice(ids, limit, LandingPage(page, |ids|, limit));
  }

  /** The landing page agrees with the number of pages printed from the count: it is one of them, and the page asked for if
      that is one of them. */
  lemma LandingAgreesWithTotal(page: int, total: nat, limit: nat)
    requires limit >= 1
    ensures LandingPage(page, total, limit) == Nearest(page, if TotalPages(total, limit) == 0 then 1 else TotalPages(total, limit))
    ensures TotalPages(total, limit) == 0 <==> total == 0
  {
    if total > 0 { CeilingIsPositive(total, limit); }
  }

  /** A numbered page of a list that shows `ids`, of which `total` are announced: the landing page, its part, and whether it is the last. */
  ghost predicate ShowsPart(answer: Answer, ids: seq<int>, total: nat, limit: nat, page: int)
    requires limit >= 1
  {
    var p := LandingPage(page, total, limit);
    var r := Numbered(answer, page);
    r.Ok? && r.value.1 == p && r.value.0.postIDs == Part(ids, limit, p) && r.value.2 == (p < PagesOf(total, limit))
  }

  lemma TagShownCount(db: Store, tagID: int, shown: seq<int>)
    requires Valid(db) && shown == IDs(PostID(), Filter(TagRows(db, tagID), PostKeep(db)))
    ensures |shown| == |VisibleIDs(db, IDSet(TagIDs(db, tagID)))|
  {
    ShownAreVisible(db, tagID, shown);
    SizeOfList(shown, VisibleIDs(db, IDSet(TagIDs(db, tagID))));
  }

  /** The same part, told from the total alone. */
  lemma PageByTotal(answer: Answer, ids: seq<int>, total: nat, limit: nat, page: int)
    requires limit >= 1 && WalkShows(answer, ids, limit) && total == |ids|
    ensures ShowsPart(answer, ids, total, limit, page)
  {
    WebPageIsSlice(answer, ids, limit, page);
  }

  /** Page numbers of a tag list: the landing page, its posts and its last page all follow from the printed total. */
  lemma TagWebPage(db: Store, tagName: string, sortValue: string, windowValue: string, limit: int, page: int)
    requires Valid(db) && IsLimit(limit) && IsLatestTag(db, tagName, sortValue, windowValue)
    ensures ShowsPart(TagList(db, tagName, sortValue, windowValue, limit), IDs(PostID(), Filter(TagRows(db, TagOf(db, tagName)), PostKeep(db))),
                      |VisibleIDs(db, IDSet(TagIDs(db, TagOf(db, tagName))))|, limit, page)
  {
    var shown := IDs(PostID(), Filter(TagRows(db, TagOf(db, tagName)), PostKeep(db)));
    TagShownCount(db, TagOf(db, tagName), shown);
    TagWalk(db, tagName, sortValue, windowValue, limit);
    PageByTotal(TagList(db, tagName, sortValue, windowValue, limit), shown, |VisibleIDs(db, IDSet(TagIDs(db, TagOf(db, tagName))))|, limit, page);
  }

  lemma CeilingIsPositive(total: nat, limit: nat)
    requires total >= 1 && limit >= 1
    ensures (total + limit - 1) / limit >= 1
  {
    DivideStep(total - 1, limit);
  }
}
