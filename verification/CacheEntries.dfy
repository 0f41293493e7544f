/** Which queries share a cache entry: printed keys read back from the right, field by field. */
module CacheEntries {
  import opened Text
  import opened Numerals
  import opened Events
  import opened CacheKeys
  import TagKeys
  import Cursors

  /** The last field of a text is what follows its last colon. */
  lemma LastField(a: string, x: string, b: string, y: string)
    requires ':' !in x && ':' !in y && a + ":" + x == b + ":" + y
    ensures a == b && x == y
  {
    var s := a + ":" + x;
    assert s[|a|] == ':' && (b + ":" + y)[|b|] == ':';
    assert forall k :: |a| < k < |s| ==> s[k] == x[k - |a| - 1];
    assert forall k :: |b| < k < |s| ==> s[k] == y[k - |b| - 1];
    assert |a| == |b|;
    assert a == s[..|a|] && b == s[..|b|] && x == s[|a| + 1..] && y == s[|b| + 1..];
  }

  lemma SameFront(a: string, b: string, tail: string)
    requires a + tail == b + tail
    ensures a == b
  {
    assert a == (a + tail)[..|a|] && b == (b + tail)[..|b|];
  }

  lemma NoColonInNumber(n: int)
    ensures ':' !in PrintInt(n)
  {
    PrintIntShape(n);
  }

  /** A word, a number and a word, each after its colon. */
  lemma NumberTail(a: string, n: int, b: string, m: int, word: string)
    requires ':' !in word && a + "limit:" + PrintInt(n) + ":" + word == b + "limit:" + PrintInt(m) + ":" + word
    ensures a == b && n == m
  {
    NoColonInNumber(n);
    NoColonInNumber(m);
    LastField(a + "limit:" + PrintInt(n), word, b + "limit:" + PrintInt(m), word);
    assert a + "limit:" + PrintInt(n) == (a + "limit") + ":" + PrintInt(n);
    assert b + "limit:" + PrintInt(m) == (b + "limit") + ":" + PrintInt(m);
    LastField(a + "limit", PrintInt(n), b + "limit", PrintInt(m));
    SameFront(a, b, "limit");
    PrintIntInjective(n, m);
  }

  lemma LimitLastParts(a: string, n: int, i: int)
    ensures a + LimitLast(n, i) == (a + "limit:" + PrintInt(n) + ":" + "last") + ":" + PrintInt(i)
  {
  }

  lemma LimitCursorParts(a: string, n: int, c: string)
    ensures a + LimitCursor(n, c) == (a + "limit:" + PrintInt(n) + ":" + "cursor") + ":" + c
  {
  }

  lemma LimitLastTail(a: string, n: int, i: int, b: string, m: int, j: int)
    requires a + LimitLast(n, i) == b + LimitLast(m, j)
    ensures a == b && n == m && i == j
  {
    NoColonInNumber(i);
    NoColonInNumber(j);
    LimitLastParts(a, n, i);
    LimitLastParts(b, m, j);
    LastField(a + "limit:" + PrintInt(n) + ":" + "last", PrintInt(i), b + "limit:" + PrintInt(m) + ":" + "last", PrintInt(j));
    PrintIntInjective(i, j);
    NumberTail(a, n, b, m, "last");
  }

  lemma LimitCursorTail(a: string, n: int, c: string, b: string, m: int, d: string)
    requires ':' !in c && ':' !in d && a + LimitCursor(n, c) == b + LimitCursor(m, d)
    ensures a == b && n == m && c == d
  {
    LimitCursorParts(a, n, c);
    LimitCursorParts(b, m, d);
    LastField(a + "limit:" + PrintInt(n) + ":" + "cursor", c, b + "limit:" + PrintInt(m) + ":" + "cursor", d);
    NumberTail(a, n, b, m, "cursor");
  }

  lemma SortWindowTail(a: string, s: string, w: string, b: string, t: string, v: string)
    requires ':' !in s && ':' !in w && ':' !in t && ':' !in v && a + SortWindow(s, w) == b + SortWindow(t, v)
    ensures a == b && s == t && w == v
  {
    var left, right := a + "sort:" + s + ":" + "window", b + "sort:" + t + ":" + "window";
    assert a + SortWindow(s, w) == (left + ":" + w) + ":" && b + SortWindow(t, v) == (right + ":" + v) + ":";
    SameFront(left + ":" + w, right + ":" + v, ":");
    LastField(left, w, right, v);
    LastField(a + "sort:" + s, "window", b + "sort:" + t, "window");
    assert a + "sort:" + s == (a + "sort") + ":" + s && b + "sort:" + t == (b + "sort") + ":" + t;
    LastField(a + "sort", s, b + "sort", t);
    SameFront(a, b, "sort");
  }

  /** Sort, window, limit and cursor at the end of a key. */
  lemma RankedTail(a: string, s: string, w: string, n: int, c: string, b: string, t: string, v: string, m: int, d: string)
    requires ':' !in s && ':' !in w && ':' !in c && ':' !in t && ':' !in v && ':' !in d
    requires a + (SortWindow(s, w) + LimitCursor(n, c)) == b + (SortWindow(t, v) + LimitCursor(m, d))
    ensures a == b && s == t && w == v && n == m && c == d
  {
    assert a + (SortWindow(s, w) + LimitCursor(n, c)) == (a + SortWindow(s, w)) + LimitCursor(n, c);
    assert b + (SortWindow(t, v) + LimitCursor(m, d)) == (b + SortWindow(t, v)) + LimitCursor(m, d);
    LimitCursorTail(a + SortWindow(s, w), n, c, b + SortWindow(t, v), m, d);
    SortWindowTail(a, s, w, b, t, v);
  }

  lemma SameField(head: string, x: string, y: string)
    requires Field(head, x) == Field(head, y)
    ensures x == y
  {
    SameTail(head, x + ":", y + ":");
    SameFront(x, y, ":");
  }

  lemma SameNumber(head: string, n: int, m: int)
    requires Field(head, PrintInt(n)) == Field(head, PrintInt(m))
    ensures n == m
  {
    SameField(head, PrintInt(n), PrintInt(m));
    PrintIntInjective(n, m);
  }

  /** What readers print between colons: normalised sorts and windows, and cursors that can be read. */
  predicate Plain(r: Read) {
    match r
    case SearchRead(_, _, c) => ':' !in c
    case SearchSortedRead(_, s, w, _, c) => ':' !in s && ':' !in w && ':' !in c
    case FeedRead(s, w, _, c) => ':' !in s && ':' !in w && ':' !in c
    case RankedPostListRead(_, s, w, _, c) => ':' !in s && ':' !in w && ':' !in c
    case RankedTagPostListRead(_, s, w, _, c) => ':' !in s && ':' !in w && ':' !in c
    case _ => true
  }

  predicate IsSearch(r: Read) { r.SearchRead? || r.SearchSortedRead? }

  /** The kinds of key, numbered; the two kinds of search share their head. */
  function Kind(r: Read): nat {
    match r
    case BoardListRead(_, _) => 0
    case BoardAdminListRead(_, _) => 1
    case PostListRead(_, _, _) => 2
    case PostDetailRead(_) => 3
    case TagPostListRead(_, _, _) => 4
    case SearchRead(_, _, _) => 5
    case SearchSortedRead(_, _, _, _, _) => 5
    case FeedRead(_, _, _, _) => 6
    case RankedPostListRead(_, _, _, _, _) => 7
    case RankedTagPostListRead(_, _, _, _, _) => 8
    case CommentListRead(_, _, _) => 9
    case ReactionListRead(_, _) => 10
  }

  const MARKS: seq<(char, char, char, char)> := [
    ('b', 's', ':', 'l'), ('b', 's', ':', 'a'), ('p', ':', 'l', 'i'), ('p', ':', 'd', 'e'), ('t', 'p', 'o', 's'), ('p', ':', 's', 'e'),
    ('p', ':', 'f', 'e'), ('p', ':', 'r', 'a'), ('t', 'r', 'a', 'n'), ('c', 'n', 't', 's'), ('r', 'i', 'o', 'n')
  ]

  lemma {:induction false} KindMarked(r: Read)
    ensures |KeyOf(r)| >= 8 && Mark(KeyOf(r)) == MARKS[Kind(r)]
  {
    HeadBegins(r);
  }

  lemma MarksDiffer(i: nat, j: nat)
    requires i < |MARKS| && j < |MARKS| && MARKS[i] == MARKS[j]
    ensures i == j
  {
  }

  /** Equal keys are keys of one kind. */
  lemma {:induction false} SameKind(a: Read, b: Read)
    requires KeyOf(a) == KeyOf(b)
    ensures Kind(a) == Kind(b)
  {
    KindMarked(a);
    KindMarked(b);
    MarksDiffer(Kind(a), Kind(b));
  }

  lemma {:induction false} DateListsDiffer(a: Read, b: Read)
    requires KeyOf(a) == KeyOf(b)
    requires a.BoardListRead? || a.BoardAdminListRead? || a.PostListRead? || a.TagPostListRead? || a.CommentListRead?
    ensures a == b
  {
    SameKind(a, b);
    match a
    case BoardListRead(n, i) => LimitLastTail(BOARD_LIST_PREFIX, n, i, BOARD_LIST_PREFIX, b.limit, b.last);
    case BoardAdminListRead(n, i) => LimitLastTail(BOARD_ADMIN_LIST_PREFIX, n, i, BOARD_ADMIN_LIST_PREFIX, b.limit, b.last);
    case PostListRead(x, n, i) =>
      LimitLastTail(PostListPrefix(x), n, i, PostListPrefix(b.board), b.limit, b.last);
      SameNumber(POST_LIST_HEAD, x, b.board);
    case TagPostListRead(x, n, i) =>
      LimitLastTail(TagPostListPrefix(x), n, i, TagPostListPrefix(b.tag), b.limit, b.last);
      SameField(TAG_POST_LIST_GLOBAL_PREFIX, x, b.tag);
    case CommentListRead(x, n, i) =>
      LimitLastTail(CommentListPrefix(x), n, i, CommentListPrefix(b.post), b.limit, b.last);
      SameNumber(COMMENT_LIST_GLOBAL_PREFIX, x, b.post);
    case _ =>
  }

  lemma {:induction false} RankedListsDiffer(a: Read, b: Read)
    requires KeyOf(a) == KeyOf(b) && Plain(a) && Plain(b)
    requires a.FeedRead? || a.RankedPostListRead? || a.RankedTagPostListRead?
    ensures a == b
  {
    SameKind(a, b);
    match a
    case FeedRead(s, w, n, c) => RankedTail(POST_FEED_LIST_PREFIX, s, w, n, c, POST_FEED_LIST_PREFIX, b.sort, b.window, b.limit, b.cursor);
    case RankedPostListRead(x, s, w, n, c) =>
      RankedTail(RankedPostListPrefix(x), s, w, n, c, RankedPostListPrefix(b.board), b.sort, b.window, b.limit, b.cursor);
      SameNumber(RANKED_POST_LIST_HEAD, x, b.board);
    case RankedTagPostListRead(x, s, w, n, c) =>
      RankedTail(RankedTagPostListPrefix(x), s, w, n, c, RankedTagPostListPrefix(b.tag), b.sort, b.window, b.limit, b.cursor);
      SameField(RANKED_TAG_POST_LIST_GLOBAL_PREFIX, x, b.tag);
    case _ =>
  }

  /** A key without sort and window, which no reader prints, can be that of a sorted search for a shorter query. */
  predicate Twins(plain: Read, sorted: Read) {
    && plain.SearchRead? && sorted.SearchSortedRead?
    && plain.query == sorted.query + ":sort:" + sorted.sort + ":window:" + sorted.window
    && plain.limit == sorted.limit && plain.cursor == sorted.cursor
  }

  /** What precedes the limit in the key of a search. */
  function SearchFront(r: Read): string
    requires IsSearch(r)
  {
    if r.SearchRead? then "q:" + r.query + ":" else "q:" + r.query + ":" + SortWindow(r.sort, r.window)
  }

  lemma SearchKeyIs(r: Read)
    requires IsSearch(r)
    ensures KeyOf(r) == POST_SEARCH_LIST_PREFIX + (SearchFront(r) + LimitCursor(r.limit, r.cursor))
  {
  }

  lemma {:induction false} SearchesDiffer(a: Read, b: Read)
    requires KeyOf(a) == KeyOf(b) && Plain(a) && Plain(b) && IsSearch(a) && IsSearch(b)
    ensures a == b || Twins(a, b) || Twins(b, a)
  {
    SearchKeyIs(a);
    SearchKeyIs(b);
    SameTail(POST_SEARCH_LIST_PREFIX, SearchFront(a) + LimitCursor(a.limit, a.cursor), SearchFront(b) + LimitCursor(b.limit, b.cursor));
    LimitCursorTail(SearchFront(a), a.limit, a.cursor, SearchFront(b), b.limit, b.cursor);
    if a.SearchRead? && b.SearchRead? {
      SameFront("q:" + a.query, "q:" + b.query, ":");
      SameTail("q:", a.query, b.query);
    } else if a.SearchSortedRead? && b.SearchSortedRead? {
      SortWindowTail("q:" + a.query + ":", a.sort, a.window, "q:" + b.query + ":", b.sort, b.window);
      SameFront("q:" + a.query, "q:" + b.query, ":");
      SameTail("q:", a.query, b.query);
    } else if a.SearchRead? {
      TwinFronts(a.query, b.query, b.sort, b.window);
    } else {
      TwinFronts(b.query, a.query, a.sort, a.window);
    }
  }

  lemma TwinFronts(plain: string, query: string, sort: string, window: string)
    ensures "q:" + plain + ":" == "q:" + query + ":" + SortWindow(sort, window) <==> plain == query + ":sort:" + sort + ":window:" + window
  {
    var longer := query + ":sort:" + sort + ":window:" + window;
    assert "q:" + query + ":" + SortWindow(sort, window) == "q:" + longer + ":";
    if "q:" + plain + ":" == "q:" + longer + ":" {
      SameFront("q:" + plain, "q:" + longer, ":");
      SameTail("q:", plain, longer);
    }
  }

  /** Two queries have the same key exactly when they are the same query, or twins: no page of a list is ever answered with
      another page, another order, or another list. */
  lemma {:induction false} SameKeyIff(a: Read, b: Read)
    requires Plain(a) && Plain(b)
    ensures KeyOf(a) == KeyOf(b) <==> a == b || Twins(a, b) || Twins(b, a)
  {
    if Twins(a, b) {
      SearchKeyIs(a);
      SearchKeyIs(b);
      TwinFronts(a.query, b.query, b.sort, b.window);
    } else if Twins(b, a) {
      SearchKeyIs(a);
      SearchKeyIs(b);
      TwinFronts(b.query, a.query, a.sort, a.window);
    } else if KeyOf(a) == KeyOf(b) {
      SameKind(a, b);
      SameKind(a, b);
      if IsSearch(a) { SearchesDiffer(a, b); }
      else if a.PostDetailRead? { IsPostDetail(a.post, b); }
      else if a.ReactionListRead? { IsReactionList(a.target, a.id, b); }
      else if a.FeedRead? || a.RankedPostListRead? || a.RankedTagPostListRead? { RankedListsDiffer(a, b); }
      else { DateListsDiffer(a, b); }
    }
  }

  /** Cursors that the lists read leave a query plain. */
  lemma {:induction false} ReadableIsPlain(r: Read)
    requires r.FeedRead? || r.RankedPostListRead? || r.RankedTagPostListRead? || r.SearchSortedRead?
    requires ':' !in r.sort && ':' !in r.window && (IsBlank(r.cursor) || Cursors.Payload(r.cursor).Some?)
    ensures Plain(r)
  {
    Cursors.ReadableHoldsNoColon(r.cursor);
  }

  // A search looks its key up before it reads its cursor, so there a cursor may hold colons.

  /** The key of a search from the colon after its query up to its cursor, without the last colon. */
  function Between(r: Read): string
    requires r.SearchSortedRead?
  {
    ":" + (SortWindow(r.sort, r.window) + ("limit:" + PrintInt(r.limit) + ":cursor"))
  }

  lemma SearchKeyParts(r: Read)
    requires r.SearchSortedRead?
    ensures KeyOf(r) == POST_SEARCH_LIST_PREFIX + ("q:" + (r.query + (Between(r) + (":" + r.cursor))))
  {
    var limit, last := "limit:" + PrintInt(r.limit) + ":cursor", ":" + r.cursor;
    CursorLast(r.limit, r.cursor);
    SearchKeyIs(r);
    Regroup(r.query, SortWindow(r.sort, r.window), limit, last);
  }

  lemma CursorLast(limit: int, cursor: string)
    ensures LimitCursor(limit, cursor) == ("limit:" + PrintInt(limit) + ":cursor") + (":" + cursor)
  {
  }

  lemma Regroup(query: string, words: string, limit: string, last: string)
    ensures "q:" + query + ":" + words + (limit + last) == "q:" + (query + ((":" + (words + limit)) + last))
  {
  }

  /** The words of a normalised search. */
  predicate SearchWords(r: Read)
    requires r.SearchSortedRead?
  {
    r.sort in {"relevance", "hot", "latest", "top"} && r.window in {"", "24h", "7d", "30d", "all"}
  }

  /** The longer query is the shorter one with its key's middle and the front of its cursor, and the rest of that cursor reads
      as the middle of the other key and its cursor. */
  ghost predicate Overlap(a: Read, b: Read)
    requires a.SearchSortedRead? && b.SearchSortedRead?
  {
    exists x: string :: b.query == a.query + Between(a) + x && ":" + a.cursor == x + (Between(b) + (":" + b.cursor))
  }

  lemma FirstField(a: string, x: string, b: string, y: string)
    requires ':' !in a && ':' !in b && a + ":" + x == b + ":" + y
    ensures a == b && x == y
  {
    var s := a + ":" + x;
    assert s[|a|] == ':' && (b + ":" + y)[|b|] == ':';
    assert forall k :: 0 <= k < |a| ==> s[k] == a[k];
    assert forall k :: 0 <= k < |b| ==> s[k] == b[k];
    assert |a| == |b|;
    assert a == s[..|a|] && b == s[..|b|] && x == s[|a| + 1..] && y == s[|b| + 1..];
  }

  /** A field that is not the word for the sort is passed over. */
  lemma PassField(f: string, g: string, rest: string, e: string, tail: string) returns (e': string)
    requires ':' !in f && ':' !in g && g != "sort"
    requires f + ":" + (g + ":" + rest) == e + (":sort:" + tail)
    ensures e == f + ":" + e' && g + ":" + rest == e' + (":sort:" + tail)
  {
    assert e + (":sort:" + tail) == (e + ":") + ("sort:" + tail);
    TagKeys.ColonCut(f, g + ":" + rest, e);
    if e == f {
      e' := "";
      assert f + (":sort:" + tail) == (f + ":") + ("sort" + ":" + tail);
      SameTail(f + ":", g + ":" + rest, "sort" + ":" + tail);
      FirstField(g, rest, "sort", tail);
    } else {
      e' := e[|f| + 1..];
      assert e == f + ":" + e';
      assert f + ":" + (g + ":" + rest) == (f + ":") + (g + ":" + rest);
      assert e + (":sort:" + tail) == (f + ":") + (e' + (":sort:" + tail));
      SameTail(f + ":", g + ":" + rest, e' + (":sort:" + tail));
    }
  }

  /** The fields of a search key after its query. */
  lemma BetweenFields(r: Read, z: string)
    requires r.SearchSortedRead?
    ensures Between(r) + z ==
      ":" + ("sort" + ":" + (r.sort + ":" + ("window" + ":" + (r.window + ":" + ("limit" + ":" + (PrintInt(r.limit) + ":" + ("cursor" + z)))))))
  {
    var n := PrintInt(r.limit);
    var rest := "limit" + ":" + (n + ":" + ("cursor" + z));
    assert "limit:" + n + ":cursor" + z == rest;
    WindowFields(r.sort, r.window, rest);
    assert Between(r) + z == ":" + (SortWindow(r.sort, r.window) + ("limit:" + n + ":cursor" + z));
  }

  lemma WindowFields(sort: string, window: string, rest: string)
    ensures SortWindow(sort, window) + rest == "sort" + ":" + (sort + ":" + ("window" + ":" + (window + ":" + rest)))
  {
  }

  /** Passing over the fields of a first search key up to its cursor. */
  lemma PassFields(s: string, w: string, n: string, last: string, e: string, tail: string) returns (e': string)
    requires ':' !in s && ':' !in w && ':' !in n && s != "sort" && w != "sort" && n != "sort" && e != ""
    requires ":" + ("sort" + ":" + (s + ":" + ("window" + ":" + (w + ":" + ("limit" + ":" + (n + ":" + ("cursor" + ":" + last))))))) == e + (":sort:" + tail)
    ensures e == ":" + ("sort" + ":" + (s + ":" + ("window" + ":" + (w + ":" + ("limit" + ":" + (n + ":" + e'))))))
    ensures "cursor" + ":" + last == e' + (":sort:" + tail)
  {
    var r6 := "cursor" + ":" + last;
    var r5 := n + ":" + r6;
    var r4 := "limit" + ":" + r5;
    var r3 := w + ":" + r4;
    var r2 := "window" + ":" + r3;
    var r1 := s + ":" + r2;
    var e0 := WithoutColon("sort" + ":" + r1, e, tail);
    var e1 := PassField("sort", s, r2, e0, tail);
    var e2 := PassField(s, "window", r3, e1, tail);
    var e3 := PassField("window", w, r4, e2, tail);
    var e4 := PassField(w, "limit", r5, e3, tail);
    var e5 := PassField("limit", n, r6, e4, tail);
    e' := PassField(n, "cursor", last, e5, tail);
  }

  lemma WithoutColon(rest: string, e: string, tail: string) returns (e': string)
    requires e != "" && ":" + rest == e + (":sort:" + tail)
    ensures e == ":" + e' && rest == e' + (":sort:" + tail)
  {
    assert e[0] == (e + (":sort:" + tail))[0] == (":" + rest)[0] == ':';
    e' := e[1..];
    assert e == ":" + e';
    assert ":" + rest == ":" + (e' + (":sort:" + tail));
    SameTail(":", rest, e' + (":sort:" + tail));
  }

  lemma AfterCursorWord(last: string, e: string, tail: string) returns (x: string)
    requires "cursor" + ":" + last == e + (":sort:" + tail)
    ensures e == "cursor" + x && ":" + last == x + (":sort:" + tail)
  {
    assert e + (":sort:" + tail) == (e + ":") + ("sort:" + tail);
    TagKeys.ColonCut("cursor", last, e);
    x := e[|"cursor"|..];
    assert e == "cursor" + x;
    assert "cursor" + ":" + last == "cursor" + (":" + last);
    assert e + (":sort:" + tail) == "cursor" + (x + (":sort:" + tail));
    SameTail("cursor", ":" + last, x + (":sort:" + tail));
  }

  /** A second search key begins inside a first one not before its cursor. */
  lemma BeginsInCursor(a: Read, b: Read, e: string) returns (x: string)
    requires a.SearchSortedRead? && b.SearchSortedRead? && SearchWords(a) && e != ""
    requires Between(a) + (":" + a.cursor) == e + (Between(b) + (":" + b.cursor))
    ensures e == Between(a) + x && ":" + a.cursor == x + (Between(b) + (":" + b.cursor))
  {
    BetweenFields(a, ":" + a.cursor);
    BetweenFields(b, ":" + b.cursor);
    var n := PrintInt(a.limit);
    NoColonInNumber(a.limit);
    NumberIsNoWord(a.limit);
    var tail := b.sort + ":" + ("window" + ":" + (b.window + ":" + ("limit" + ":" + (PrintInt(b.limit) + ":" + ("cursor" + (":" + b.cursor))))));
    assert Between(b) + (":" + b.cursor) == ":sort:" + tail;
    assert "cursor" + (":" + a.cursor) == "cursor" + ":" + a.cursor;
    var e' := PassFields(a.sort, a.window, n, a.cursor, e, tail);
    x := AfterCursorWord(a.cursor, e', tail);
    BetweenFields(a, x);
  }

  lemma NumberIsNoWord(n: int)
    ensures PrintInt(n) != "sort"
  {
    PrintIntShape(n);
    assert PrintInt(n)[0] != 's';
    assert "sort"[0] == 's';
  }

  lemma SharedMeansOverlap(a: Read, b: Read)
    requires a.SearchSortedRead? && b.SearchSortedRead? && SearchWords(a) && SearchWords(b) && |a.query| <= |b.query|
    requires KeyOf(a) == KeyOf(b)
    ensures a == b || Overlap(a, b)
  {
    hide *;
    SameAfterHead(a, b);
    var e := b.query[|a.query|..];
    var middle, other := Between(a) + (":" + a.cursor), Between(b) + (":" + b.cursor);
    assert b.query == a.query + e;
    assert a.query + middle == a.query + (e + other);
    SameTail(a.query, middle, e + other);
    if e == "" {
      SamePlace(a, b);
    } else {
      var x := BeginsInCursor(a, b, e);
      assert a.query + (Between(a) + x) == a.query + Between(a) + x;
      OverlapAt(a, b, x);
    }
  }

  lemma OverlapAt(a: Read, b: Read, x: string)
    requires a.SearchSortedRead? && b.SearchSortedRead?
    requires b.query == a.query + Between(a) + x && ":" + a.cursor == x + (Between(b) + (":" + b.cursor))
    ensures Overlap(a, b)
  {
  }

  lemma OverlapShares(a: Read, b: Read)
    requires a.SearchSortedRead? && b.SearchSortedRead? && Overlap(a, b)
    ensures KeyOf(a) == KeyOf(b) && a != b && ':' in a.cursor
  {
    var x: string :| b.query == a.query + Between(a) + x && ":" + a.cursor == x + (Between(b) + (":" + b.cursor));
    var other := Between(b) + (":" + b.cursor);
    SearchKeyParts(a);
    SearchKeyParts(b);
    OtherGrouping(a.query, Between(a), x, other);
    assert |b.query| > |a.query|;
    ColonInside(a.cursor, x, Between(b), ":" + b.cursor);
  }

  lemma OtherGrouping(query: string, middle: string, x: string, other: string)
    ensures (query + middle + x) + other == query + (middle + (x + other))
  {
  }

  /** Two different searches share an entry exactly when the cursor of the one holds the rest of a search key: so a search
      whose cursor holds no colon never does, and the code prints and reads only such. */
  lemma {:induction false} SharedSearchIff(a: Read, b: Read)
    requires a.SearchSortedRead? && b.SearchSortedRead? && SearchWords(a) && SearchWords(b) && |a.query| <= |b.query|
    ensures KeyOf(a) == KeyOf(b) <==> a == b || Overlap(a, b)
    ensures Overlap(a, b) ==> a != b && ':' in a.cursor
  {
    if KeyOf(a) == KeyOf(b) { SharedMeansOverlap(a, b); }
    if Overlap(a, b) { OverlapShares(a, b); }
  }

  lemma SameAfterHead(a: Read, b: Read)
    requires a.SearchSortedRead? && b.SearchSortedRead? && KeyOf(a) == KeyOf(b) && |a.query| <= |b.query|
    ensures a.query + (Between(a) + (":" + a.cursor)) == b.query + (Between(b) + (":" + b.cursor))
    ensures a.query <= b.query
  {
    SearchKeyParts(a);
    SearchKeyParts(b);
    var x, y := a.query + (Between(a) + (":" + a.cursor)), b.query + (Between(b) + (":" + b.cursor));
    SameTail(POST_SEARCH_LIST_PREFIX, "q:" + x, "q:" + y);
    SameTail("q:", x, y);
    assert a.query == x[..|a.query|] && b.query[..|a.query|] == y[..|a.query|];
  }

  /** With equal queries the rest reads off field by field, the cursor last, whatever it holds. */
  lemma {:induction false} SamePlace(a: Read, b: Read)
    requires a.SearchSortedRead? && b.SearchSortedRead? && SearchWords(a) && SearchWords(b) && a.query == b.query
    requires Between(a) + (":" + a.cursor) == "" + (Between(b) + (":" + b.cursor))
    ensures a == b
  {
    BetweenFields(a, ":" + a.cursor);
    BetweenFields(b, ":" + b.cursor);
    NoColonInNumber(a.limit);
    NoColonInNumber(b.limit);
    var a5, b5 := PrintInt(a.limit) + ":" + ("cursor" + (":" + a.cursor)), PrintInt(b.limit) + ":" + ("cursor" + (":" + b.cursor));
    var a3, b3 := a.window + ":" + ("limit" + ":" + a5), b.window + ":" + ("limit" + ":" + b5);
    var a1, b1 := a.sort + ":" + ("window" + ":" + a3), b.sort + ":" + ("window" + ":" + b3);
    assert Between(a) + (":" + a.cursor) == ":" + ("sort" + ":" + a1) && Between(b) + (":" + b.cursor) == ":" + ("sort" + ":" + b1);
    assert "" + (Between(b) + (":" + b.cursor)) == Between(b) + (":" + b.cursor);
    SameTail(":", "sort" + ":" + a1, "sort" + ":" + b1);
    FirstField("sort", a1, "sort", b1);
    FirstField(a.sort, "window" + ":" + a3, b.sort, "window" + ":" + b3);
    FirstField("window", a3, "window", b3);
    FirstField(a.window, "limit" + ":" + a5, b.window, "limit" + ":" + b5);
    FirstField("limit", a5, "limit", b5);
    FirstField(PrintInt(a.limit), "cursor" + (":" + a.cursor), PrintInt(b.limit), "cursor" + (":" + b.cursor));
    SameTail("cursor", ":" + a.cursor, ":" + b.cursor);
    SameTail(":", a.cursor, b.cursor);
    PrintIntInjective(a.limit, b.limit);
  }

  lemma ColonInside(cursor: string, x: string, middle: string, last: string)
    requires ":" + cursor == x + (middle + last) && middle != "" && last != "" && last[0] == ':'
    ensures ':' in cursor
  {
    var k := |x| + |middle|;
    assert (x + (middle + last))[k] == last[0];
    assert cursor[k - 1] == ':';
  }

  /** Such pairs exist for all words and limits: a search asked with a cursor nobody printed has the key of another search,
      for its own query and the middle of its own key. */
  lemma {:induction false} SearchesCanShare(a: Read, b: Read)
    requires a.SearchSortedRead? && b.SearchSortedRead?
    requires b.query == a.query + Between(a) && a.cursor == (Between(b) + (":" + b.cursor))[1..]
    ensures a != b && KeyOf(a) == KeyOf(b)
  {
    var other := Between(b) + (":" + b.cursor);
    assert ":" + other[1..] == "" + other;
    assert a.query + Between(a) == a.query + Between(a) + "";
    OverlapAt(a, b, "");
    OverlapShares(a, b);
  }
}
