/** The list use cases: reading the request, choosing the loader, and what following their cursors shows. */
module PostLists {
  import opened Text
  import opened Cursors
  import opened PostStore
  import opened PostQuery
  import opened TagSearchQuery
  import TagCoordinator

  /** Sort and window words as a request gives them; `fallback` stands for a blank sort. */
  function NormalizeSortWindow(sortValue: string, windowValue: string, fallback: string): Result<(string, string)> {
    var trimmed := ToLower(TrimSpace(sortValue));
    var sort := if trimmed == "" then fallback else trimmed;
    if sort == "hot" || sort == "latest" || sort == "best" then
      if IsBlank(windowValue) then Ok((sort, "")) else Err(InvalidInput)
    else if sort == "top" then
      match NormalizeTopWindow(windowValue)
      case Err(e) => Err(e)
      case Ok(window) => Ok((sort, window))
    else Err(InvalidInput)
  }

  function NormalizeTopWindow(windowValue: string): Result<string> {
    var window := ToLower(TrimSpace(windowValue));
    if window == "" then Ok("7d")
    else if window == "24h" || window == "7d" || window == "30d" || window == "all" then Ok(window)
    else Err(InvalidInput)
  }

  /** A blank search sort means relevance, whatever the window; "best" is not offered here. */
  function NormalizeSearchSort(sortValue: string, windowValue: string): Result<(string, string)> {
    var sort := ToLower(TrimSpace(sortValue));
    if sort == "" then Ok((RELEVANCE, ""))
    else if sort == RELEVANCE || sort == "hot" || sort == "latest" then
      if IsBlank(windowValue) then Ok((sort, "")) else Err(InvalidInput)
    else if sort == "top" then
      match NormalizeTopWindow(windowValue)
      case Err(e) => Err(e)
      case Ok(window) => Ok((sort, window))
    else Err(InvalidInput)
  }

  /** The accepted sorts and windows: a blank sort is the fallback, a blank window of "top" is seven days, and the others take no window. */
  lemma {:induction false} SortWords(sortValue: string, windowValue: string, fallback: string)
    requires fallback == "hot" || fallback == "latest"
    ensures
      var n := NormalizeSortWindow(sortValue, windowValue, fallback);
      var sort, window := ToLower(TrimSpace(sortValue)), ToLower(TrimSpace(windowValue));
      && (n.Err? ==> n == Err(InvalidInput))
      && (n.Ok? <==> (sort in {"", "hot", "latest", "best"} && window == "") || (sort == "top" && window in {"", "24h", "7d", "30d", "all"}))
      && (n.Ok? ==> n.value == (if sort == "" then fallback else sort, if sort == "top" && window == "" then "7d" else window))
  {
    BlankForm(windowValue);
  }

  /** The same for searches: a blank sort is relevance whatever the window, and "best" is refused. */
  lemma {:induction false} SearchWords(sortValue: string, windowValue: string)
    ensures
      var n := NormalizeSearchSort(sortValue, windowValue);
      var sort, window := ToLower(TrimSpace(sortValue)), ToLower(TrimSpace(windowValue));
      && (n.Err? ==> n == Err(InvalidInput))
      && (n.Ok? <==> sort == "" || (sort in {"relevance", "hot", "latest"} && window == "") || (sort == "top" && window in {"", "24h", "7d", "30d", "all"}))
      && (n.Ok? ==> n.value == if sort == "" then ("relevance", "") else (sort, if sort == "top" && window == "" then "7d" else window))
  {
    BlankForm(windowValue);
  }

  lemma BlankForm(s: string)
    ensures ToLower(TrimSpace(s)) == "" <==> IsBlank(s)
  {
    assert |ToLower(TrimSpace(s))| == |TrimSpace(s)|;
  }

  /** Normalised words can stand in a cursor. */
  lemma NormalizedAreFields(sortValue: string, windowValue: string, fallback: string)
    requires fallback == "hot" || fallback == LATEST
    ensures
      var n := NormalizeSortWindow(sortValue, windowValue, fallback);
      n.Ok? ==> IsField(n.value.0) && IsField(n.value.1)
    ensures
      var n := NormalizeSearchSort(sortValue, windowValue);
      n.Ok? ==> IsField(n.value.0) && IsField(n.value.1)
  {
    assert IsField("hot") && IsField("latest") && IsField("best") && IsField("top") && IsField("relevance");
    assert IsField("") && IsField("24h") && IsField("7d") && IsField("30d") && IsField("all");
  }

  function Anything(): Post -> bool { (p: Post) => true }

  function OnBoard(boardID: int): Post -> bool { (p: Post) => p.boardID == boardID }

  function Among(ids: set<int>): Post -> bool { (p: Post) => p.id in ids }

  /** The ranked page a cursor text asks for. */
  ghost function RankedAnswer(db: Store, sort: string, window: string, limit: nat, cursor: string, wanted: Post -> bool): Result<PostList>
    requires Valid(db) && IsField(sort) && IsField(window) && limit >= 1
  {
    match DecodeFeed(sort, window, cursor)
    case Err(e) => Err(e)
    case Ok(from) => Ok(FeedPage(db, sort, window, limit, FeedFrom(from), cursor, wanted))
  }

  ghost function FeedAnswer(db: Store, sortValue: string, windowValue: string, limit: int, cursor: string): Result<PostList>
    requires Valid(db)
  {
    NormalizedAreFields(sortValue, windowValue, "hot");
    if !IsLimit(limit) then Err(InvalidInput)
    else match NormalizeSortWindow(sortValue, windowValue, "hot")
      case Err(e) => Err(e)
      case Ok((sort, window)) => RankedAnswer(db, sort, window, limit, cursor, Anything())
  }

  /** Published posts of some boards, board by board. */
  function SumPublished(db: Store, boards: seq<int>): nat {
    if boards == [] then 0
    else SumPublished(db, boards[..|boards| - 1]) + CountPublishedPostsByBoardID(db, boards[|boards| - 1])
  }

  /** The total printed with the feed: the published posts of the newest visible boards, at most a page limit of boards. */
  function FeedTotal(db: Store): nat { SumPublished(db, SelectBoardList(db, MAX_PAGE_LIMIT)) }

  method CountVisiblePublishedPosts(db: Store, flaky: bool) returns (r: Result<nat>)
    ensures r.Ok? ==> r.value == FeedTotal(db)
    ensures r.Err? ==> flaky && r.error == RepositoryFailure
  {
    var down := CallFails(flaky);
    if down { return Err(RepositoryFailure); }
    var boards := SelectBoardList(db, MAX_PAGE_LIMIT);
    var total := 0;
    for i := 0 to |boards|
      invariant total == SumPublished(db, boards[..i])
    {
      assert boards[..i + 1][..i] == boards[..i];
      down := CallFails(flaky);
      if down { return Err(RepositoryFailure); }
      total := total + CountPublishedPostsByBoardID(db, boards[i]);
    }
    assert boards[..|boards|] == boards;
    return Ok(total);
  }

  method GetFeed(db: Store, sortValue: string, windowValue: string, limit: int, cursor: string, flaky: bool) returns (r: Result<PostList>, total: nat)
    requires Valid(db)
    ensures !flaky || r.Ok? ==> r == FeedAnswer(db, sortValue, windowValue, limit, cursor)
    ensures r.Ok? ==> total == FeedTotal(db)
  {
    total := 0;
    if !IsLimit(limit) { r := Err(InvalidInput); return; }
    NormalizedAreFields(sortValue, windowValue, "hot");
    var words := NormalizeSortWindow(sortValue, windowValue, "hot");
    if words.Err? { r := Err(words.error); return; }
    var (sort, window) := words.value;
    var from := DecodeFeed(sort, window, cursor);
    if from.Err? { r := Err(from.error); return; }
    r := LoadRankedPosts(db, sort, window, limit, from.value, cursor, Anything(), flaky);
    if r.Err? { return; }
    var count := CountVisiblePublishedPosts(db, flaky);
    if count.Err? { r := Err(count.error); return; }
    total := count.value;
  }

  /** One fetch of `limit + 1` rows, cut to `limit`; the last id kept is the next cursor. */
  function LoadCursorListPage(limit: nat, text: string, fetched: seq<Post>): PostList
    requires limit >= 1
  {
    if |fetched| > limit then PostList(PostIDs(fetched[..limit]), limit, text, true, Some(EncodeOpaque(fetched[limit - 1].id)))
    else PostList(PostIDs(fetched), limit, text, false, None)
  }

  /** What a board list answers.  The id cursor is read first, whatever the sort. */
  ghost function BoardAnswer(db: Store, boardID: int, sortValue: string, windowValue: string, limit: int, cursor: string): Result<PostList>
    requires Valid(db)
  {
    NormalizedAreFields(sortValue, windowValue, LATEST);
    if !IsLimit(limit) then Err(InvalidInput)
    else match DecodeOpaque(cursor)
      case Err(e) => Err(e)
      case Ok(lastID) =>
        if !BoardVisible(db, boardID) then Err(NotFound)
        else match NormalizeSortWindow(sortValue, windowValue, LATEST)
          case Err(e) => Err(e)
          case Ok((sort, window)) =>
            if sort == LATEST then Ok(LoadCursorListPage(limit, cursor, SelectPosts(db, boardID, limit + 1, lastID)))
            else RankedAnswer(db, sort, window, limit, cursor, OnBoard(boardID))
  }

  method GetPostsList(db: Store, boardID: int, sortValue: string, windowValue: string, limit: int, cursor: string, flaky: bool)
    returns (r: Result<PostList>, total: nat)
    requires Valid(db)
    ensures !flaky || r.Ok? ==> r == BoardAnswer(db, boardID, sortValue, windowValue, limit, cursor)
    ensures r.Ok? ==> total == CountPublishedPostsByBoardID(db, boardID)
  {
    total := 0;
    if !IsLimit(limit) { r := Err(InvalidInput); return; }
    var lastID := DecodeOpaque(cursor);
    if lastID.Err? { r := Err(lastID.error); return; }
    var down := CallFails(flaky);
    if down { r := Err(RepositoryFailure); return; }
    if !BoardVisible(db, boardID) { r := Err(NotFound); return; }
    NormalizedAreFields(sortValue, windowValue, LATEST);
    var words := NormalizeSortWindow(sortValue, windowValue, LATEST);
    if words.Err? { r := Err(words.error); return; }
    var (sort, window) := words.value;
    if sort == LATEST {
      down := CallFails(flaky);
      if down { r := Err(RepositoryFailure); return; }
      r := Ok(LoadCursorListPage(limit, cursor, SelectPosts(db, boardID, limit + 1, lastID.value)));
    } else {
      var from := DecodeFeed(sort, window, cursor);
      if from.Err? { r := Err(from.error); return; }
      r := LoadRankedPosts(db, sort, window, limit, from.value, cursor, OnBoard(boardID), flaky);
      if r.Err? { return; }
    }
    down := CallFails(flaky);
    if down { r := Err(RepositoryFailure); return; }
    total := CountPublishedPostsByBoardID(db, boardID);
  }

  /** What the list of a tag answers, latest or ranked; again the id cursor is read first. */
  ghost function TagAnswer(db: Store, tagName: string, sortValue: string, windowValue: string, limit: int, cursor: string): Result<PostList>
    requires Valid(db)
  {
    NormalizedAreFields(sortValue, windowValue, LATEST);
    var name := TagCoordinator.NormalizeTagName(tagName);
    if !IsLimit(limit) then Err(InvalidInput)
    else match DecodeOpaque(cursor)
      case Err(e) => Err(e)
      case Ok(lastID) =>
        if !TagCoordinator.IsTagName(name) then Err(InvalidInput)
        else if name !in db.tagIDs then Err(NotFound)
        else match NormalizeSortWindow(sortValue, windowValue, LATEST)
          case Err(e) => Err(e)
          case Ok((sort, window)) =>
            if sort == LATEST then Ok(TagPage(db, db.tagIDs[name], limit, IdFrom(lastID), cursor))
            else RankedAnswer(db, sort, window, limit, cursor, Among(IDSet(TagIDs(db, db.tagIDs[name]))))
  }

  /** The list of a tag: one page, and the total counted from the tag's relations. */
  method GetPostsByTag(db: Store, tagName: string, sortValue: string, windowValue: string, limit: int, cursor: string, flaky: bool)
    returns (r: Result<PostList>, total: nat)
    requires Valid(db)
    ensures !flaky || r.Ok? ==> r == TagAnswer(db, tagName, sortValue, windowValue, limit, cursor)
    ensures r.Ok? ==> var name := TagCoordinator.NormalizeTagName(tagName);
      name in db.tagIDs && total == |VisibleIDs(db, IDSet(TagIDs(db, db.tagIDs[name])))|
  {
    total := 0;
    if !IsLimit(limit) { r := Err(InvalidInput); return; }
    var lastID := DecodeOpaque(cursor);
    if lastID.Err? { r := Err(lastID.error); return; }
    var name := TagCoordinator.NormalizeTagName(tagName);
    if !TagCoordinator.IsTagName(name) { r := Err(InvalidInput); return; }
    var down := CallFails(flaky);
    if down { r := Err(RepositoryFailure); return; }
    if name !in db.tagIDs { r := Err(NotFound); return; }
    NormalizedAreFields(sortValue, windowValue, LATEST);
    var words := NormalizeSortWindow(sortValue, windowValue, LATEST);
    if words.Err? { r := Err(words.error); return; }
    var (sort, window) := words.value;
    if sort == LATEST {
      r := LoadPublishedPostsByTag(db, name, limit, lastID.value, cursor, flaky);
    } else {
      var from := DecodeFeed(sort, window, cursor);
      if from.Err? { r := Err(from.error); return; }
      r := LoadRankedByTag(db, db.tagIDs[name], sort, window, limit, from.value, cursor, flaky);
    }
    if r.Err? { return; }
    var ids := LoadActiveTagPostIDSet(db, db.tagIDs[name], flaky);
    if ids.Err? { r := Err(ids.error); return; }
    var count := CountVisiblePostsFromIDs(db, ids.value, flaky);
    if count.Err? { r := Err(count.error); return; }
    total := count.value;
  }

  /** The ranked posts under a tag. */
  method LoadRankedByTag(db: Store, tagID: int, sort: string, window: string, limit: int, from: Option<FeedCursor>, cursor: string, flaky: bool)
    returns (r: Result<PostList>)
    requires Valid(db) && IsField(sort) && IsField(window) && IsLimit(limit) && (from.Some? ==> from.value.sort == sort)
    ensures r.Ok? ==> r.value == FeedPage(db, sort, window, limit, FeedFrom(from), cursor, Among(IDSet(TagIDs(db, tagID))))
    ensures r.Err? ==> flaky && r.error == RepositoryFailure
  {
    var ids := LoadActiveTagPostIDSet(db, tagID, flaky);
    if ids.Err? { return Err(ids.error); }
    r := LoadRankedPosts(db, sort, window, limit, from, cursor, Among(ids.value), flaky);
  }

  /** The words of a query in lower case, one space between any two. */
  function Fields(s: string, word: string): seq<string>
    decreases |s|
  {
    if s == "" then (if word == "" then [] else [word])
    else if IsSpace(s[0]) then (if word == "" then [] else [word]) + Fields(s[1..], "")
    else Fields(s[1..], word + [s[0]])
  }

  function JoinWords(words: seq<string>): string {
    if words == [] then "" else if |words| == 1 then words[0] else words[0] + " " + JoinWords(words[1..])
  }

  function NormalizeSearchQuery(query: string): string { JoinWords(Fields(ToLower(TrimSpace(query)), "")) }

  lemma {:induction false} FieldsSkip(a: string, x: string)
    requires AllSpace(a)
    ensures Fields(a + x, "") == Fields(x, "")
  {
    if a == "" {
      assert a + x == x;
    } else {
      FieldsSkip(a[1..], x);
      assert (a + x)[1..] == a[1..] + x;
    }
  }

  lemma {:induction false} FieldsTail(x: string, b: string, word: string)
    requires AllSpace(b)
    ensures Fields(x + b, word) == Fields(x, word)
    decreases |x|
  {
    if x == "" {
      assert x + b == b;
      if b != "" { FieldsSkip(b[1..], ""); assert b[1..] + "" == b[1..]; }
    } else {
      assert (x + b)[1..] == x[1..] + b;
      FieldsTail(x[1..], b, "");
      FieldsTail(x[1..], b, word + [x[0]]);
    }
  }

  lemma {:induction false} FieldsWord(u: string, x: string, word: string)
    requires NoSpace(u)
    ensures Fields(u + x, word) == Fields(x, word + u)
    decreases |u|
  {
    if u == "" {
      assert u + x == x && word + u == word;
    } else {
      assert (u + x)[1..] == u[1..] + x;
      FieldsWord(u[1..], x, word + [u[0]]);
      assert word + [u[0]] + u[1..] == word + u;
    }
  }

  /** Trimming first makes no difference to the words. */
  lemma {:induction false} WordsOf(query: string)
    ensures NormalizeSearchQuery(query) == JoinWords(Fields(ToLower(query), ""))
  {
    var a, b := TrimCuts(query);
    var t := TrimSpace(query);
    LowerConcat(a + t, b);
    LowerConcat(a, t);
    LowerKeeps(a);
    LowerKeeps(b);
    assert ToLower(query) == ToLower(a) + (ToLower(t) + ToLower(b));
    FieldsSkip(ToLower(a), ToLower(t) + ToLower(b));
    FieldsTail(ToLower(t), ToLower(b), "");
  }

  lemma {:induction false} BlankHasNoWords(x: string)
    ensures Fields(x, "") == [] <==> AllSpace(x)
    ensures forall w :: w in Fields(x, "") ==> w != ""
  {
    WordsOrNone(x, "");
  }

  lemma {:induction false} WordsOrNone(x: string, word: string)
    ensures Fields(x, word) == [] <==> word == "" && AllSpace(x)
    ensures forall w :: w in Fields(x, word) ==> w != ""
    decreases |x|
  {
    if x != "" {
      WordsOrNone(x[1..], "");
      WordsOrNone(x[1..], word + [x[0]]);
      assert AllSpace(x) <==> IsSpace(x[0]) && AllSpace(x[1..]);
    }
  }

  lemma {:induction false} OneWord(u: string)
    requires u != "" && NoSpace(u)
    ensures JoinWords(Fields(u, "")) == u
  {
    FieldsWord(u, "", "");
    assert u + "" == u && "" + u == u;
  }

  lemma {:induction false} FirstWord(u: string, w: string, x: string)
    requires u != "" && NoSpace(u) && w != "" && AllSpace(w)
    ensures Fields(u + (w + x), "") == [u] + Fields(x, "")
  {
    FieldsWord(u, w + x, "");
    assert "" + u == u && (w + x)[0] == w[0] && (w + x)[1..] == w[1..] + x;
    FieldsSkip(w[1..], x);
  }

  lemma {:induction false} JoinFirst(u: string, words: seq<string>)
    ensures JoinWords([u] + words) == if words == [] then u else u + " " + JoinWords(words)
  {
    assert ([u] + words)[1..] == words;
    if words == [] { assert [u] + words == [u]; }
  }

  /** What normalising a query does, word by word: white space at the front goes, a word is put in lower case, and one blank
      stands between it and the rest, if there is a rest. */
  lemma {:induction false} QueryWords(word: string, space: string, rest: string)
    requires word != "" && NoSpace(word) && space != "" && AllSpace(space)
    ensures NormalizeSearchQuery(space + rest) == NormalizeSearchQuery(rest)
    ensures NormalizeSearchQuery(word) == ToLower(word)
    ensures NormalizeSearchQuery(word + space + rest) == ToLower(word) + (if IsBlank(rest) then "" else " " + NormalizeSearchQuery(rest))
  {
    var u, w, x := ToLower(word), ToLower(space), ToLower(rest);
    LowerKeeps(word);
    LowerKeeps(space);
    QueryParts(word, space, rest);
    WordsOf(rest);
    WordsOf(space + rest);
    WordsOf(word);
    WordsOf(word + space + rest);
    FieldsSkip(w, x);
    OneWord(u);
    FirstWord(u, w, x);
    JoinFirst(u, Fields(x, ""));
    BlankLower(rest);
  }

  lemma QueryParts(word: string, space: string, rest: string)
    ensures ToLower(space + rest) == ToLower(space) + ToLower(rest)
    ensures ToLower(word + space + rest) == ToLower(word) + (ToLower(space) + ToLower(rest))
  {
    LowerConcat(space, rest);
    LowerConcat(word + space, rest);
    LowerConcat(word, space);
  }

  lemma {:induction false} BlankLower(rest: string)
    ensures IsBlank(rest) <==> Fields(ToLower(rest), "") == []
  {
    BlankHasNoWords(ToLower(rest));
    BlankIff(rest);
    LowerKeeps(rest);
    assert AllSpace(ToLower(rest)) <==> AllSpace(rest);
  }

  /** So a query that is blank, and no other, normalises to nothing. */
  lemma {:induction false} EmptyQueryIff(query: string)
    ensures NormalizeSearchQuery(query) == "" <==> IsBlank(query)
  {
    WordsOf(query);
    BlankLower(query);
    BlankHasNoWords(ToLower(query));
    var words := Fields(ToLower(query), "");
    if words != [] { assert words[0] in words; }
  }

  /** What a search answers. */
  ghost function SearchAnswer(db: Store, queryText: string, sortValue: string, windowValue: string, limit: int, cursor: string): Result<PostList>
    requires Valid(db)
  {
    NormalizedAreFields(sortValue, windowValue, LATEST);
    var query := NormalizeSearchQuery(queryText);
    if !IsLimit(limit) || query == "" then Err(InvalidInput)
    else match NormalizeSearchSort(sortValue, windowValue)
      case Err(e) => Err(e)
      case Ok((sort, window)) =>
        if sort == RELEVANCE then
          match DecodeSearch(sort, window, cursor)
          case Err(e) => Err(e)
          case Ok(from) => Ok(SearchPage(db, query, limit, SearchFrom(from), cursor))
        else RankedAnswer(db, sort, window, limit, cursor, Among(IDSet(SearchIDs(FoundRows(db, query)))))
  }

  method SearchPosts(db: Store, queryText: string, sortValue: string, windowValue: string, limit: int, cursor: string, flaky: bool)
    returns (r: Result<PostList>, total: nat)
    requires Valid(db)
    ensures !flaky || r.Ok? ==> r == SearchAnswer(db, queryText, sortValue, windowValue, limit, cursor)
    ensures r.Ok? ==> total == |VisibleIDs(db, IDSet(SearchIDs(FoundRows(db, NormalizeSearchQuery(queryText)))))|
  {
    total := 0;
    var query := NormalizeSearchQuery(queryText);
    if !IsLimit(limit) || query == "" { r := Err(InvalidInput); return; }
    NormalizedAreFields(sortValue, windowValue, LATEST);
    var words := NormalizeSearchSort(sortValue, windowValue);
    if words.Err? { r := Err(words.error); return; }
    var (sort, window) := words.value;
    if sort == RELEVANCE {
      var from := DecodeSearch(sort, window, cursor);
      if from.Err? { r := Err(from.error); return; }
      r := LoadPublishedPostsBySearch(db, query, limit, from.value, cursor, flaky);
    } else {
      var matches := LoadSearchMatchSet(db, query, flaky);
      if matches.Err? { r := Err(matches.error); return; }
      var from := DecodeFeed(sort, window, cursor);
      if from.Err? { r := Err(from.error); return; }
      r := LoadRankedPosts(db, sort, window, limit, from.value, cursor, Among(matches.value), flaky);
    }
    if r.Err? { return; }
    var found := LoadSearchMatchSet(db, query, flaky);
    if found.Err? { r := Err(found.error); return; }
    var count := CountVisiblePostsFromIDs(db, found.value, flaky);
    if count.Err? { r := Err(count.error); return; }
    total := count.value;
  }
}
