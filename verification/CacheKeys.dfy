/** How readers print their cache keys, and which keys a printed prefix covers. */
module CacheKeys {
  import opened Text
  import opened Numerals
  import opened Events

  /** A cached answer, by the query that built it. */
  datatype Read =
    | BoardListRead(limit: int, last: int)
    | BoardAdminListRead(limit: int, last: int)
    | PostListRead(board: int, limit: int, last: int)
    | PostDetailRead(post: int)
    | TagPostListRead(tag: string, limit: int, last: int)
    | SearchRead(query: string, limit: int, cursor: string)
    | SearchSortedRead(query: string, sort: string, window: string, limit: int, cursor: string)
    | FeedRead(sort: string, window: string, limit: int, cursor: string)
    | RankedPostListRead(board: int, sort: string, window: string, limit: int, cursor: string)
    | RankedTagPostListRead(tag: string, sort: string, window: string, limit: int, cursor: string)
    | CommentListRead(post: int, limit: int, last: int)
    | ReactionListRead(target: TargetType, id: int)

  const BOARD_LIST_PREFIX := "boards:list:"
  const BOARD_ADMIN_LIST_PREFIX := "boards:admin:list:"
  const POST_LIST_HEAD := "posts:list:board:"
  const POST_DETAIL_PREFIX := "posts:detail:"
  const TAG_POST_LIST_GLOBAL_PREFIX := "tags:posts:name:"
  const POST_SEARCH_LIST_PREFIX := "posts:search:"
  const POST_FEED_LIST_PREFIX := "posts:feed:"
  const RANKED_POST_LIST_GLOBAL_PREFIX := "posts:ranked:list:"
  const RANKED_POST_LIST_HEAD := "posts:ranked:list:board:"
  const RANKED_TAG_POST_LIST_GLOBAL_PREFIX := "tags:ranked:posts:name:"
  const COMMENT_LIST_GLOBAL_PREFIX := "comments:list:post:"
  const REACTION_LIST_PREFIX := "reactions:list:"

  function Field(head: string, field: string): string { head + (field + ":") }

  function PostListPrefix(board: int): string { Field(POST_LIST_HEAD, PrintInt(board)) }

  function TagPostListPrefix(tag: string): string { Field(TAG_POST_LIST_GLOBAL_PREFIX, tag) }

  function RankedPostListPrefix(board: int): string { Field(RANKED_POST_LIST_HEAD, PrintInt(board)) }

  function RankedTagPostListPrefix(tag: string): string { Field(RANKED_TAG_POST_LIST_GLOBAL_PREFIX, tag) }

  function CommentListPrefix(post: int): string { Field(COMMENT_LIST_GLOBAL_PREFIX, PrintInt(post)) }

  function PostDetail(post: int): string { POST_DETAIL_PREFIX + PrintInt(post) }

  function TargetName(t: TargetType): string { match t case PostTarget => "post" case CommentTarget => "comment" }

  function ReactionList(t: TargetType, id: int): string { Field(REACTION_LIST_PREFIX, TargetName(t)) + PrintInt(id) }

  function LimitLast(limit: int, last: int): string { "limit:" + PrintInt(limit) + ":last:" + PrintInt(last) }

  function LimitCursor(limit: int, cursor: string): string { "limit:" + PrintInt(limit) + ":cursor:" + cursor }

  function SortWindow(sort: string, window: string): string { "sort:" + sort + ":window:" + window + ":" }

  function KeyOf(r: Read): string {
    match r
    case BoardListRead(limit, last) => BOARD_LIST_PREFIX + LimitLast(limit, last)
    case BoardAdminListRead(limit, last) => BOARD_ADMIN_LIST_PREFIX + LimitLast(limit, last)
    case PostListRead(board, limit, last) => PostListPrefix(board) + LimitLast(limit, last)
    case PostDetailRead(post) => PostDetail(post)
    case TagPostListRead(tag, limit, last) => TagPostListPrefix(tag) + LimitLast(limit, last)
    case SearchRead(query, limit, cursor) => POST_SEARCH_LIST_PREFIX + ("q:" + query + ":" + LimitCursor(limit, cursor))
    case SearchSortedRead(query, sort, window, limit, cursor) =>
      POST_SEARCH_LIST_PREFIX + ("q:" + query + ":" + SortWindow(sort, window) + LimitCursor(limit, cursor))
    case FeedRead(sort, window, limit, cursor) => POST_FEED_LIST_PREFIX + (SortWindow(sort, window) + LimitCursor(limit, cursor))
    case RankedPostListRead(board, sort, window, limit, cursor) =>
      RankedPostListPrefix(board) + (SortWindow(sort, window) + LimitCursor(limit, cursor))
    case RankedTagPostListRead(tag, sort, window, limit, cursor) =>
      RankedTagPostListPrefix(tag) + (SortWindow(sort, window) + LimitCursor(limit, cursor))
    case CommentListRead(post, limit, last) => CommentListPrefix(post) + LimitLast(limit, last)
    case ReactionListRead(t, id) => ReactionList(t, id)
  }

  /** Four places where the fixed heads of any two kinds of key differ. */
  function Mark(s: string): (char, char, char, char)
    requires |s| >= 8
  {
    (s[0], s[5], s[6], s[7])
  }

  function HeadOf(r: Read): string {
    match r
    case BoardListRead(_, _) => BOARD_LIST_PREFIX
    case BoardAdminListRead(_, _) => BOARD_ADMIN_LIST_PREFIX
    case PostListRead(_, _, _) => POST_LIST_HEAD
    case PostDetailRead(_) => POST_DETAIL_PREFIX
    case TagPostListRead(_, _, _) => TAG_POST_LIST_GLOBAL_PREFIX
    case SearchRead(_, _, _) => POST_SEARCH_LIST_PREFIX
    case SearchSortedRead(_, _, _, _, _) => POST_SEARCH_LIST_PREFIX
    case FeedRead(_, _, _, _) => POST_FEED_LIST_PREFIX
    case RankedPostListRead(_, _, _, _, _) => RANKED_POST_LIST_HEAD
    case RankedTagPostListRead(_, _, _, _, _) => RANKED_TAG_POST_LIST_GLOBAL_PREFIX
    case CommentListRead(_, _, _) => COMMENT_LIST_GLOBAL_PREFIX
    case ReactionListRead(_, _) => REACTION_LIST_PREFIX
  }

  lemma FieldBegins(head: string, field: string, rest: string)
    ensures HasPrefix(Field(head, field) + rest, head)
  {
    assert Field(head, field) + rest == head + (field + ":" + rest);
  }

  lemma {:induction false} HeadIsPrefix(r: Read)
    ensures HasPrefix(KeyOf(r), HeadOf(r))
  {
    match r
    case PostListRead(b, l, i) => FieldBegins(POST_LIST_HEAD, PrintInt(b), LimitLast(l, i));
    case TagPostListRead(t, l, i) => FieldBegins(TAG_POST_LIST_GLOBAL_PREFIX, t, LimitLast(l, i));
    case RankedPostListRead(b, s, w, l, c) => FieldBegins(RANKED_POST_LIST_HEAD, PrintInt(b), SortWindow(s, w) + LimitCursor(l, c));
    case RankedTagPostListRead(t, s, w, l, c) => FieldBegins(RANKED_TAG_POST_LIST_GLOBAL_PREFIX, t, SortWindow(s, w) + LimitCursor(l, c));
    case CommentListRead(p, l, i) => FieldBegins(COMMENT_LIST_GLOBAL_PREFIX, PrintInt(p), LimitLast(l, i));
    case ReactionListRead(t, i) => FieldBegins(REACTION_LIST_PREFIX, TargetName(t), PrintInt(i));
    case _ =>
  }

  lemma PrefixMark(p: string, key: string)
    requires |p| >= 8 && HasPrefix(key, p)
    ensures Mark(p) == Mark(key)
  {
  }

  /** Every key begins with the fixed head of its kind. */
  lemma {:induction false} HeadBegins(r: Read)
    ensures |HeadOf(r)| >= 8 && HasPrefix(KeyOf(r), HeadOf(r))
    ensures Mark(KeyOf(r)) == Mark(HeadOf(r))
  {
    HeadIsPrefix(r);
    PrefixMark(HeadOf(r), KeyOf(r));
  }

  lemma Apart(p: string, key: string)
    requires |p| >= 8 && |key| >= 8 && Mark(p) != Mark(key)
    ensures !HasPrefix(key, p)
  {
  }

  /** A printed field between two colons is matched by itself only. */
  lemma FieldMatch(head: string, a: string, b: string, rest: string)
    requires ':' !in a && ':' !in b
    ensures HasPrefix(Field(head, b) + rest, Field(head, a)) <==> a == b
  {
    var key, p := Field(head, b) + rest, Field(head, a);
    assert key == head + (b + ":" + rest);
    if HasPrefix(key, p) {
      assert key[|head|..] == b + ":" + rest && a + ":" == p[|head|..];
      var tail := b + ":" + rest;
      assert a + ":" <= tail;
      assert tail[|a|] == ':' && tail[|b|] == ':';
      assert a == tail[..|a|] && b == tail[..|b|];
    }
  }

  lemma {:induction false} NumberMatch(head: string, a: int, b: int, rest: string)
    ensures HasPrefix(Field(head, PrintInt(b)) + rest, Field(head, PrintInt(a))) <==> a == b
  {
    PrintIntShape(a);
    PrintIntShape(b);
    FieldMatch(head, PrintInt(a), PrintInt(b), rest);
    if PrintInt(a) == PrintInt(b) { PrintIntInjective(a, b); }
  }

  lemma {:induction false} UnderPostList(board: int, r: Read)
    ensures HasPrefix(KeyOf(r), PostListPrefix(board)) <==> r.PostListRead? && r.board == board
  {
    HeadBegins(r);
    if r.PostListRead? { NumberMatch(POST_LIST_HEAD, board, r.board, LimitLast(r.limit, r.last)); }
    else { Apart(PostListPrefix(board), KeyOf(r)); }
  }

  lemma {:induction false} UnderRankedPostList(board: int, r: Read)
    ensures HasPrefix(KeyOf(r), RankedPostListPrefix(board)) <==> r.RankedPostListRead? && r.board == board
  {
    HeadBegins(r);
    if r.RankedPostListRead? {
      NumberMatch(RANKED_POST_LIST_HEAD, board, r.board, SortWindow(r.sort, r.window) + LimitCursor(r.limit, r.cursor));
    } else { Apart(RankedPostListPrefix(board), KeyOf(r)); }
  }

  lemma {:induction false} UnderCommentList(post: int, r: Read)
    ensures HasPrefix(KeyOf(r), CommentListPrefix(post)) <==> r.CommentListRead? && r.post == post
  {
    HeadBegins(r);
    if r.CommentListRead? { NumberMatch(COMMENT_LIST_GLOBAL_PREFIX, post, r.post, LimitLast(r.limit, r.last)); }
    else { Apart(CommentListPrefix(post), KeyOf(r)); }
  }

  /** What a key prints after the name of its tag. */
  function AfterTag(r: Read): string {
    match r
    case TagPostListRead(_, limit, last) => LimitLast(limit, last)
    case RankedTagPostListRead(_, sort, window, limit, cursor) => SortWindow(sort, window) + LimitCursor(limit, cursor)
    case _ => ""
  }

  /** The name and its colon begin what a key prints from its own tag on. */
  predicate Collides(tag: string, r: Read)
    requires r.TagPostListRead? || r.RankedTagPostListRead?
  {
    HasPrefix(r.tag + ":" + AfterTag(r), tag + ":")
  }

  lemma HeadCancels(head: string, a: string, b: string)
    ensures HasPrefix(head + b, head + a) <==> HasPrefix(b, a)
  {
    assert (head + b)[|head|..] == b;
    if HasPrefix(head + b, head + a) { assert a == (head + b)[|head|..|head| + |a|]; }
    if HasPrefix(b, a) { assert (head + b)[..|head| + |a|] == head + a; }
  }

  lemma FieldText(head: string, field: string, rest: string)
    ensures Field(head, field) + rest == head + (field + ":" + rest)
  {
  }

  /** For any names at all, colons or not: which tag lists a tag's prefix covers. */
  lemma {:induction false} UnderTag(tag: string, r: Read)
    ensures HasPrefix(KeyOf(r), TagPostListPrefix(tag)) <==> r.TagPostListRead? && Collides(tag, r)
  {
    if r.TagPostListRead? {
      FieldText(TAG_POST_LIST_GLOBAL_PREFIX, r.tag, AfterTag(r));
      HeadCancels(TAG_POST_LIST_GLOBAL_PREFIX, tag + ":", r.tag + ":" + AfterTag(r));
    } else {
      HeadBegins(r);
      Apart(TagPostListPrefix(tag), KeyOf(r));
    }
  }

  lemma {:induction false} UnderRankedTag(tag: string, r: Read)
    ensures HasPrefix(KeyOf(r), RankedTagPostListPrefix(tag)) <==> r.RankedTagPostListRead? && Collides(tag, r)
  {
    if r.RankedTagPostListRead? {
      FieldText(RANKED_TAG_POST_LIST_GLOBAL_PREFIX, r.tag, AfterTag(r));
      HeadCancels(RANKED_TAG_POST_LIST_GLOBAL_PREFIX, tag + ":", r.tag + ":" + AfterTag(r));
    } else {
      HeadBegins(r);
      Apart(RankedTagPostListPrefix(tag), KeyOf(r));
    }
  }

  /** A key under some text shares its mark. */
  lemma {:induction false} UnderMeansMark(p: string, r: Read)
    requires |p| >= 8 && HasPrefix(KeyOf(r), p)
    ensures Mark(p) == Mark(HeadOf(r))
  {
    HeadBegins(r);
    PrefixMark(p, KeyOf(r));
  }

  lemma {:induction false} UnderSearchHead(r: Read)
    ensures HasPrefix(KeyOf(r), POST_SEARCH_LIST_PREFIX) <==> r.SearchRead? || r.SearchSortedRead?
  {
    HeadIsPrefix(r);
    if HasPrefix(KeyOf(r), POST_SEARCH_LIST_PREFIX) { UnderMeansMark(POST_SEARCH_LIST_PREFIX, r); }
  }

  lemma {:induction false} UnderFeedHead(r: Read)
    ensures HasPrefix(KeyOf(r), POST_FEED_LIST_PREFIX) <==> r.FeedRead?
  {
    HeadIsPrefix(r);
    if HasPrefix(KeyOf(r), POST_FEED_LIST_PREFIX) { UnderMeansMark(POST_FEED_LIST_PREFIX, r); }
  }

  lemma {:induction false} UnderDetailHead(r: Read)
    ensures HasPrefix(KeyOf(r), POST_DETAIL_PREFIX) <==> r.PostDetailRead?
  {
    HeadIsPrefix(r);
    if HasPrefix(KeyOf(r), POST_DETAIL_PREFIX) { UnderMeansMark(POST_DETAIL_PREFIX, r); }
  }

  lemma {:induction false} UnderRankedHead(r: Read)
    ensures HasPrefix(KeyOf(r), RANKED_POST_LIST_GLOBAL_PREFIX) <==> r.RankedPostListRead?
  {
    HeadIsPrefix(r);
    if HasPrefix(KeyOf(r), RANKED_POST_LIST_GLOBAL_PREFIX) { UnderMeansMark(RANKED_POST_LIST_GLOBAL_PREFIX, r); }
    assert RANKED_POST_LIST_GLOBAL_PREFIX <= RANKED_POST_LIST_HEAD;
  }

  lemma {:induction false} UnderOtherHeads(r: Read)
    ensures HasPrefix(KeyOf(r), BOARD_LIST_PREFIX) <==> r.BoardListRead?
    ensures HasPrefix(KeyOf(r), COMMENT_LIST_GLOBAL_PREFIX) <==> r.CommentListRead?
    ensures HasPrefix(KeyOf(r), REACTION_LIST_PREFIX) <==> r.ReactionListRead?
  {
    HeadIsPrefix(r);
    if HasPrefix(KeyOf(r), BOARD_LIST_PREFIX) { UnderMeansMark(BOARD_LIST_PREFIX, r); }
    if HasPrefix(KeyOf(r), COMMENT_LIST_GLOBAL_PREFIX) { UnderMeansMark(COMMENT_LIST_GLOBAL_PREFIX, r); }
    if HasPrefix(KeyOf(r), REACTION_LIST_PREFIX) { UnderMeansMark(REACTION_LIST_PREFIX, r); }
  }

  lemma {:induction false} UnderTagHeads(r: Read)
    ensures HasPrefix(KeyOf(r), TAG_POST_LIST_GLOBAL_PREFIX) <==> r.TagPostListRead?
    ensures HasPrefix(KeyOf(r), RANKED_TAG_POST_LIST_GLOBAL_PREFIX) <==> r.RankedTagPostListRead?
  {
    HeadIsPrefix(r);
    if HasPrefix(KeyOf(r), TAG_POST_LIST_GLOBAL_PREFIX) { UnderMeansMark(TAG_POST_LIST_GLOBAL_PREFIX, r); }
    if HasPrefix(KeyOf(r), RANKED_TAG_POST_LIST_GLOBAL_PREFIX) { UnderMeansMark(RANKED_TAG_POST_LIST_GLOBAL_PREFIX, r); }
  }

  /** A fixed prefix covers the keys of its kind and no others. */
  lemma {:induction false} UnderHeads(r: Read)
    ensures HasPrefix(KeyOf(r), BOARD_LIST_PREFIX) <==> r.BoardListRead?
    ensures HasPrefix(KeyOf(r), POST_SEARCH_LIST_PREFIX) <==> r.SearchRead? || r.SearchSortedRead?
    ensures HasPrefix(KeyOf(r), POST_FEED_LIST_PREFIX) <==> r.FeedRead?
    ensures HasPrefix(KeyOf(r), POST_DETAIL_PREFIX) <==> r.PostDetailRead?
    ensures HasPrefix(KeyOf(r), COMMENT_LIST_GLOBAL_PREFIX) <==> r.CommentListRead?
    ensures HasPrefix(KeyOf(r), REACTION_LIST_PREFIX) <==> r.ReactionListRead?
    ensures HasPrefix(KeyOf(r), TAG_POST_LIST_GLOBAL_PREFIX) <==> r.TagPostListRead?
    ensures HasPrefix(KeyOf(r), RANKED_TAG_POST_LIST_GLOBAL_PREFIX) <==> r.RankedTagPostListRead?
    ensures HasPrefix(KeyOf(r), RANKED_POST_LIST_GLOBAL_PREFIX) <==> r.RankedPostListRead?
  {
    UnderSearchHead(r);
    UnderFeedHead(r);
    UnderDetailHead(r);
    UnderRankedHead(r);
    UnderOtherHeads(r);
    UnderTagHeads(r);
  }

  /** A printed text after equal heads is the same text. */
  lemma SameTail(head: string, a: string, b: string)
    requires head + a == head + b
    ensures a == b
  {
    assert a == (head + a)[|head|..] == (head + b)[|head|..] == b;
  }

  lemma NamesOfTargets(t: TargetType, u: TargetType)
    ensures ':' !in TargetName(t) && (TargetName(t) == TargetName(u) ==> t == u)
  {
    assert |"post"| != |"comment"|;
  }

  lemma {:induction false} ReactionListsDiffer(t: TargetType, id: int, u: TargetType, id': int)
    requires ReactionList(t, id) == ReactionList(u, id')
    ensures t == u && id == id'
  {
    NamesOfTargets(t, u);
    NamesOfTargets(u, t);
    FieldMatch(REACTION_LIST_PREFIX, TargetName(t), TargetName(u), PrintInt(id'));
    SameTail(Field(REACTION_LIST_PREFIX, TargetName(t)), PrintInt(id), PrintInt(id'));
    PrintIntInjective(id, id');
  }

  lemma {:induction false} IsReactionList(t: TargetType, id: int, r: Read)
    ensures KeyOf(r) == ReactionList(t, id) <==> r == ReactionListRead(t, id)
  {
    if KeyOf(r) == ReactionList(t, id) {
      FieldBegins(REACTION_LIST_PREFIX, TargetName(t), PrintInt(id));
      UnderOtherHeads(r);
      ReactionListsDiffer(r.target, r.id, t, id);
    }
  }

  lemma {:induction false} IsPostDetail(post: int, r: Read)
    ensures KeyOf(r) == PostDetail(post) <==> r == PostDetailRead(post)
  {
    if KeyOf(r) == PostDetail(post) {
      UnderDetailHead(r);
      SameTail(POST_DETAIL_PREFIX, PrintInt(r.post), PrintInt(post));
      PrintIntInjective(r.post, post);
    }
  }
}
