/** The handler that drops the cached answers a domain event makes stale. */
module Invalidation {
  import opened Text
  import opened Numerals
  import opened Events
  import opened Cache
  import opened CacheKeys
  import opened TagKeys

  /** What an event is meant to reach, said of queries and without any key text. */
  ghost predicate Touches(e: Event, r: Read) {
    match e
    case BoardChanged(board, visibility) =>
      || r.BoardListRead? || r.SearchRead? || r.SearchSortedRead? || r.FeedRead?
      || ((r.PostListRead? || r.RankedPostListRead?) && r.board == board)
      || (visibility && (r.PostDetailRead? || r.CommentListRead? || r.ReactionListRead? || r.TagPostListRead? || r.RankedTagPostListRead?))
    case PostChanged(post, board, tags, deleted, comments) =>
      || r.SearchRead? || r.SearchSortedRead? || r.FeedRead?
      || ((r.PostListRead? || r.RankedPostListRead?) && r.board == board)
      || r == PostDetailRead(post)
      || ((r.TagPostListRead? || r.RankedTagPostListRead?) && r.tag in tags)
      || (deleted && ((r.CommentListRead? && r.post == post) || r == ReactionListRead(PostTarget, post)
                      || (r.ReactionListRead? && r.target == CommentTarget && r.id in comments)))
    case CommentChanged(comment, post, deleted) =>
      || r.SearchRead? || r.SearchSortedRead? || r.FeedRead? || r.RankedPostListRead? || r.RankedTagPostListRead?
      || (r.CommentListRead? && r.post == post)
      || r == PostDetailRead(post)
      || (deleted && r == ReactionListRead(CommentTarget, comment))
    case ReactionChanged(_, target, id, post, _, _) =>
      || r.SearchRead? || r.SearchSortedRead? || r.FeedRead? || r.RankedPostListRead? || r.RankedTagPostListRead?
      || r == ReactionListRead(target, id)
      || r == PostDetailRead(post)
    case AttachmentChanged(post) => r == PostDetailRead(post)
  }

  /** The text of a key that an event removes. */
  predicate DropsTags(tags: seq<string>, k: string) {
    exists t :: t in tags && (HasPrefix(k, TagPostListPrefix(t)) || HasPrefix(k, RankedTagPostListPrefix(t)))
  }

  predicate DropsComments(comments: seq<int>, k: string) { exists c :: c in comments && k == ReactionList(CommentTarget, c) }

  predicate DropsOnDelete(post: int, comments: seq<int>, k: string) {
    HasPrefix(k, CommentListPrefix(post)) || k == ReactionList(PostTarget, post) || DropsComments(comments, k)
  }

  predicate DropsListings(board: int, k: string) {
    || HasPrefix(k, PostListPrefix(board)) || HasPrefix(k, POST_SEARCH_LIST_PREFIX)
    || HasPrefix(k, POST_FEED_LIST_PREFIX) || HasPrefix(k, RankedPostListPrefix(board))
  }

  predicate DropsRankings(k: string) {
    || HasPrefix(k, POST_FEED_LIST_PREFIX) || HasPrefix(k, POST_SEARCH_LIST_PREFIX)
    || HasPrefix(k, RANKED_POST_LIST_GLOBAL_PREFIX) || HasPrefix(k, RANKED_TAG_POST_LIST_GLOBAL_PREFIX)
  }

  predicate DropsVisible(k: string) {
    || HasPrefix(k, POST_DETAIL_PREFIX) || HasPrefix(k, COMMENT_LIST_GLOBAL_PREFIX) || HasPrefix(k, REACTION_LIST_PREFIX)
    || HasPrefix(k, TAG_POST_LIST_GLOBAL_PREFIX) || HasPrefix(k, RANKED_TAG_POST_LIST_GLOBAL_PREFIX)
  }

  predicate Drops(e: Event, k: string) {
    match e
    case BoardChanged(board, visibility) =>
      HasPrefix(k, BOARD_LIST_PREFIX) || DropsListings(board, k) || (visibility && DropsVisible(k))
    case PostChanged(post, board, tags, deleted, comments) =>
      DropsListings(board, k) || k == PostDetail(post) || DropsTags(tags, k) || (deleted && DropsOnDelete(post, comments, k))
    case CommentChanged(comment, post, deleted) =>
      || HasPrefix(k, CommentListPrefix(post)) || DropsRankings(k) || k == PostDetail(post)
      || (deleted && k == ReactionList(CommentTarget, comment))
    case ReactionChanged(_, target, id, post, _, _) => k == ReactionList(target, id) || DropsRankings(k) || k == PostDetail(post)
    case AttachmentChanged(post) => k == PostDetail(post)
  }

  /** Texts of the tags involved hold no colon, so printed keys show where a tag name ends. */
  predicate PlainTags(e: Event, r: Read) {
    && (e.PostChanged? ==> forall t :: t in e.tags ==> ':' !in t)
    && (r.TagPostListRead? || r.RankedTagPostListRead? ==> ':' !in r.tag)
  }

  lemma {:induction false} ListingsExactly(board: int, r: Read)
    ensures DropsListings(board, KeyOf(r)) <==>
      r.SearchRead? || r.SearchSortedRead? || r.FeedRead? || ((r.PostListRead? || r.RankedPostListRead?) && r.board == board)
  {
    UnderPostList(board, r);
    UnderRankedPostList(board, r);
    UnderHeads(r);
  }

  /** A tag list that some of these tags' prefixes covers. */
  predicate SomeCollides(tags: seq<string>, r: Read) {
    (r.TagPostListRead? || r.RankedTagPostListRead?) && exists t :: t in tags && Collides(t, r)
  }

  lemma {:induction false} TagsExactly(tags: seq<string>, r: Read)
    ensures DropsTags(tags, KeyOf(r)) <==> SomeCollides(tags, r)
    ensures (r.TagPostListRead? || r.RankedTagPostListRead?) && r.tag in tags ==> SomeCollides(tags, r)
  {
    forall t ensures HasPrefix(KeyOf(r), TagPostListPrefix(t)) || HasPrefix(KeyOf(r), RankedTagPostListPrefix(t)) <==>
      (r.TagPostListRead? || r.RankedTagPostListRead?) && Collides(t, r)
    {
      UnderTag(t, r);
      UnderRankedTag(t, r);
    }
    if (r.TagPostListRead? || r.RankedTagPostListRead?) && r.tag in tags { CollidesByName(r.tag, r); }
  }

  lemma {:induction false} OnDeleteExactly(post: int, comments: seq<int>, r: Read)
    ensures DropsOnDelete(post, comments, KeyOf(r)) <==>
      || (r.CommentListRead? && r.post == post) || r == ReactionListRead(PostTarget, post)
      || (r.ReactionListRead? && r.target == CommentTarget && r.id in comments)
  {
    UnderCommentList(post, r);
    IsReactionList(PostTarget, post, r);
    forall c ensures KeyOf(r) == ReactionList(CommentTarget, c) <==> r == ReactionListRead(CommentTarget, c) {
      IsReactionList(CommentTarget, c, r);
    }
    assert DropsComments(comments, KeyOf(r)) <==> exists c :: c in comments && r == ReactionListRead(CommentTarget, c);
  }

  lemma {:induction false} RankingsExactly(r: Read)
    ensures DropsRankings(KeyOf(r)) <==>
      r.SearchRead? || r.SearchSortedRead? || r.FeedRead? || r.RankedPostListRead? || r.RankedTagPostListRead?
  {
    UnderHeads(r);
  }

  /** An event reaches an answer that it is not about: a tag list under a colliding name. */
  predicate Overreaches(e: Event, r: Read) { e.PostChanged? && SomeCollides(e.tags, r) }

  /** For every event and every query, whatever the names hold: dropped are the answers the event is about, and the tag
      lists with which a name of the event collides. */
  lemma {:induction false} DropsExactly(e: Event, r: Read)
    ensures Drops(e, KeyOf(r)) <==> Touches(e, r) || Overreaches(e, r)
  {
    match e {
      case BoardChanged(board, visibility) => ListingsExactly(board, r); UnderHeads(r);
      case PostChanged(post, board, tags, deleted, comments) =>
        ListingsExactly(board, r); TagsExactly(tags, r); IsPostDetail(post, r); OnDeleteExactly(post, comments, r);
      case CommentChanged(comment, post, deleted) =>
        RankingsExactly(r); UnderCommentList(post, r); IsPostDetail(post, r); IsReactionList(CommentTarget, comment, r);
      case ReactionChanged(_, target, id, post, _, _) => RankingsExactly(r); IsPostDetail(post, r); IsReactionList(target, id, r);
      case AttachmentChanged(post) => IsPostDetail(post, r);
    }
  }

  /** Every answer an event makes stale is dropped: all limits, cursors, sorts and windows. */
  lemma {:induction false} Coverage(e: Event, r: Read)
    requires Touches(e, r)
    ensures Drops(e, KeyOf(r))
  {
    DropsExactly(e, r);
  }

  /** With colon-free tag names nothing else is dropped: other boards, posts, tags and targets keep their answers. */
  lemma {:induction false} Survival(e: Event, r: Read)
    requires PlainTags(e, r) && Drops(e, KeyOf(r))
    ensures Touches(e, r)
  {
    DropsExactly(e, r);
    if Overreaches(e, r) {
      var t :| t in e.tags && Collides(t, r);
      CollidesByName(t, r);
    }
  }

  /** An event leaves every list of a tag alone, for all limits, ids, sorts, windows and cursors, exactly when none of
      its names reaches that tag. */
  lemma {:induction false} TagSparedIff(e: Event, tag: string)
    requires e.PostChanged?
    ensures (forall r: Read {:trigger KeyOf(r)} :: (r.TagPostListRead? || r.RankedTagPostListRead?) && IsTagRead(r, tag) ==> !Drops(e, KeyOf(r)))
      <==> (forall t :: t in e.tags ==> !Reaches(t, tag))
  {
    if t :| t in e.tags && Reaches(t, tag) {
      var r := ReachingCollides(t, tag);
      DropsExactly(e, r);
      assert SomeCollides(e.tags, r);
      assert Drops(e, KeyOf(r));
    } else {
      forall r: Read | (r.TagPostListRead? || r.RankedTagPostListRead?) && IsTagRead(r, tag) ensures !Drops(e, KeyOf(r)) {
        DropsExactly(e, r);
        TagReadNotTouched(e, r, tag);
      }
    }
  }

  lemma {:induction false} TagReadNotTouched(e: Event, r: Read, tag: string)
    requires e.PostChanged? && (forall t :: t in e.tags ==> !Reaches(t, tag))
    requires (r.TagPostListRead? || r.RankedTagPostListRead?) && IsTagRead(r, tag)
    ensures !Touches(e, r) && !Overreaches(e, r)
  {
    assert Reaches(tag, tag);
    assert r.tag == tag;
    forall t | t in e.tags ensures !Collides(t, r) {
      if Collides(t, r) { CollisionReaches(t, r); }
    }
  }

  /** A colon lets names reach each other both ways: "go" drops the lists of "go:x", and "go:limit:5" those of "go" cut to five. */
  lemma {:induction false} ColonReachesAnotherTag(limit: int, last: int)
    ensures Drops(PostChanged(1, 1, ["go"], false, []), KeyOf(TagPostListRead("go:x", limit, last)))
    ensures !Touches(PostChanged(1, 1, ["go"], false, []), TagPostListRead("go:x", limit, last))
    ensures Drops(PostChanged(1, 1, ["go:limit:5"], false, []), KeyOf(TagPostListRead("go", 5, last)))
    ensures !Touches(PostChanged(1, 1, ["go:limit:5"], false, []), TagPostListRead("go", 5, last))
  {
    ShorterName(LimitLast(limit, last));
    LongerName(last);
    assert |"go"| == 2 && |"go:x"| == 4 && |"go:limit:5"| == 10;
    OneTagDrops("go", TagPostListRead("go:x", limit, last));
    OneTagDrops("go:limit:5", TagPostListRead("go", 5, last));
  }

  lemma {:induction false} OneTagDrops(tag: string, r: Read)
    requires r.TagPostListRead? && Collides(tag, r) && r.tag != tag
    ensures Drops(PostChanged(1, 1, [tag], false, []), KeyOf(r)) && !Touches(PostChanged(1, 1, [tag], false, []), r)
  {
    assert tag in [tag];
    assert SomeCollides([tag], r);
    DropsExactly(PostChanged(1, 1, [tag], false, []), r);
  }

  lemma ShorterName(rest: string)
    ensures HasPrefix("go:x" + ":" + rest, "go" + ":")
  {
    assert "go:x" + ":" + rest == ("go" + ":") + ("x" + ":" + rest);
  }

  lemma {:induction false} LongerName(last: int)
    ensures HasPrefix("go" + ":" + LimitLast(5, last), "go:limit:5" + ":")
  {
    assert PrintInt(5) == "5";
    assert "go" + ":" + LimitLast(5, last) == ("go:limit:5" + ":") + ("last:" + PrintInt(last));
  }

  /** No event reaches the administrators' board lists. */
  lemma {:induction false} AdminBoardListStays(e: Event, limit: int, last: int)
    ensures !Drops(e, KeyOf(BoardAdminListRead(limit, last)))
  {
    DropsExactly(e, BoardAdminListRead(limit, last));
  }

  lemma TagOfNext(tags: seq<string>, i: nat)
    requires i < |tags|
    ensures forall k :: DropsTags(tags[..i + 1], k) <==>
      DropsTags(tags[..i], k) || HasPrefix(k, TagPostListPrefix(tags[i])) || HasPrefix(k, RankedTagPostListPrefix(tags[i]))
  {
    assert tags[..i + 1] == tags[..i] + [tags[i]];
  }

  lemma ReactionOfNext(comments: seq<int>, i: nat)
    requires i < |comments|
    ensures forall k :: DropsComments(comments[..i + 1], k) <==> DropsComments(comments[..i], k) || k == ReactionList(CommentTarget, comments[i])
  {
    assert comments[..i + 1] == comments[..i] + [comments[i]];
  }

  class CacheInvalidationHandler<V> {
    const cache: InMemoryCache<V>

    constructor (cache: InMemoryCache<V>)
      ensures this.cache == cache
    {
      this.cache := cache;
    }

    method DropUnder(prefix: string)
      requires cache.Valid()
      modifies cache`store, cache`prefixIndex
      ensures cache.Valid()
      ensures forall k :: k in cache.store <==> k in old(cache.store) && !HasPrefix(k, prefix)
      ensures forall k :: k in cache.store ==> cache.store[k] == old(cache.store)[k]
    {
      var deleted := cache.DeleteByPrefix(prefix);
    }

    method DropKey(key: string)
      requires cache.Valid()
      modifies cache`store, cache`prefixIndex
      ensures cache.Valid()
      ensures forall k :: k in cache.store <==> k in old(cache.store) && !(k == key)
      ensures forall k :: k in cache.store ==> cache.store[k] == old(cache.store)[k]
    {
      cache.Delete(key);
    }

    method DropListings(board: int)
      requires cache.Valid()
      modifies cache`store, cache`prefixIndex
      ensures cache.Valid()
      ensures forall k :: k in cache.store <==> k in old(cache.store) && !DropsListings(board, k)
      ensures forall k :: k in cache.store ==> cache.store[k] == old(cache.store)[k]
    {
      DropUnder(PostListPrefix(board));
      DropUnder(POST_SEARCH_LIST_PREFIX);
      DropUnder(POST_FEED_LIST_PREFIX);
      DropUnder(RankedPostListPrefix(board));
    }

    method DropRankings()
      requires cache.Valid()
      modifies cache`store, cache`prefixIndex
      ensures cache.Valid()
      ensures forall k :: k in cache.store <==> k in old(cache.store) && !DropsRankings(k)
      ensures forall k :: k in cache.store ==> cache.store[k] == old(cache.store)[k]
    {
      DropUnder(POST_FEED_LIST_PREFIX);
      DropUnder(POST_SEARCH_LIST_PREFIX);
      DropUnder(RANKED_POST_LIST_GLOBAL_PREFIX);
      DropUnder(RANKED_TAG_POST_LIST_GLOBAL_PREFIX);
    }

    method DropVisible()
      requires cache.Valid()
      modifies cache`store, cache`prefixIndex
      ensures cache.Valid()
      ensures forall k :: k in cache.store <==> k in old(cache.store) && !DropsVisible(k)
      ensures forall k :: k in cache.store ==> cache.store[k] == old(cache.store)[k]
    {
      DropUnder(POST_DETAIL_PREFIX);
      DropUnder(COMMENT_LIST_GLOBAL_PREFIX);
      DropUnder(REACTION_LIST_PREFIX);
      DropUnder(TAG_POST_LIST_GLOBAL_PREFIX);
      DropUnder(RANKED_TAG_POST_LIST_GLOBAL_PREFIX);
    }

    method DropTags(tags: seq<string>)
      requires cache.Valid()
      modifies cache`store, cache`prefixIndex
      ensures cache.Valid()
      ensures forall k :: k in cache.store <==> k in old(cache.store) && !DropsTags(tags, k)
      ensures forall k :: k in cache.store ==> cache.store[k] == old(cache.store)[k]
    {
      for i := 0 to |tags|
        invariant cache.Valid()
        invariant forall k :: k in cache.store <==> k in old(cache.store) && !DropsTags(tags[..i], k)
        invariant forall k :: k in cache.store ==> cache.store[k] == old(cache.store)[k]
      {
        TagOfNext(tags, i);
        DropUnder(TagPostListPrefix(tags[i]));
        DropUnder(RankedTagPostListPrefix(tags[i]));
      }
      assert tags[..|tags|] == tags;
    }

    method DropCommentReactions(comments: seq<int>)
      requires cache.Valid()
      modifies cache`store, cache`prefixIndex
      ensures cache.Valid()
      ensures forall k :: k in cache.store <==> k in old(cache.store) && !DropsComments(comments, k)
      ensures forall k :: k in cache.store ==> cache.store[k] == old(cache.store)[k]
    {
      for i := 0 to |comments|
        invariant cache.Valid()
        invariant forall k :: k in cache.store <==> k in old(cache.store) && !DropsComments(comments[..i], k)
        invariant forall k :: k in cache.store ==> cache.store[k] == old(cache.store)[k]
      {
        ReactionOfNext(comments, i);
        DropKey(ReactionList(CommentTarget, comments[i]));
      }
      assert comments[..|comments|] == comments;
    }

    method HandleBoardChanged(e: Event)
      requires cache.Valid() && e.BoardChanged?
      modifies cache`store, cache`prefixIndex
      ensures cache.Valid()
      ensures forall k :: k in cache.store <==> k in old(cache.store) && !Drops(e, k)
      ensures forall k :: k in cache.store ==> cache.store[k] == old(cache.store)[k]
    {
      DropUnder(BOARD_LIST_PREFIX);
      DropListings(e.board);
      if !e.visibility { return; }
      DropVisible();
    }

    method HandlePostChanged(e: Event)
      requires cache.Valid() && e.PostChanged?
      modifies cache`store, cache`prefixIndex
      ensures cache.Valid()
      ensures forall k :: k in cache.store <==> k in old(cache.store) && !Drops(e, k)
      ensures forall k :: k in cache.store ==> cache.store[k] == old(cache.store)[k]
    {
      DropListings(e.board);
      DropKey(PostDetail(e.post));
      DropTags(e.tags);
      if !e.deleted { return; }
      DropUnder(CommentListPrefix(e.post));
      DropKey(ReactionList(PostTarget, e.post));
      DropCommentReactions(e.comments);
    }

    method HandleCommentChanged(e: Event)
      requires cache.Valid() && e.CommentChanged?
      modifies cache`store, cache`prefixIndex
      ensures cache.Valid()
      ensures forall k :: k in cache.store <==> k in old(cache.store) && !Drops(e, k)
      ensures forall k :: k in cache.store ==> cache.store[k] == old(cache.store)[k]
    {
      DropUnder(CommentListPrefix(e.post));
      DropRankings();
      DropKey(PostDetail(e.post));
      if e.deleted { DropKey(ReactionList(CommentTarget, e.comment)); }
    }

    method HandleReactionChanged(e: Event)
      requires cache.Valid() && e.ReactionChanged?
      modifies cache`store, cache`prefixIndex
      ensures cache.Valid()
      ensures forall k :: k in cache.store <==> k in old(cache.store) && !Drops(e, k)
      ensures forall k :: k in cache.store ==> cache.store[k] == old(cache.store)[k]
    {
      DropKey(ReactionList(e.target, e.id));
      DropRankings();
      DropKey(PostDetail(e.post));
    }

    /** After an event no stale answer is left, and every other answer is still there, unchanged, but for the tag lists
        with which a name of the event collides. */
    method Handle(e: Event)
      requires cache.Valid()
      modifies cache`store, cache`prefixIndex
      ensures cache.Valid()
      ensures forall k :: k in cache.store <==> k in old(cache.store) && !Drops(e, k)
      ensures forall k :: k in cache.store ==> cache.store[k] == old(cache.store)[k]
      ensures forall r: Read {:trigger KeyOf(r)} :: Touches(e, r) ==> KeyOf(r) !in cache.store
      ensures forall r: Read {:trigger KeyOf(r)} :: !Touches(e, r) && !Overreaches(e, r) && KeyOf(r) in old(cache.store) ==>
        KeyOf(r) in cache.store && cache.store[KeyOf(r)] == old(cache.store)[KeyOf(r)]
    {
      match e {
        case BoardChanged(_, _) => HandleBoardChanged(e);
        case PostChanged(_, _, _, _, _) => HandlePostChanged(e);
        case CommentChanged(_, _, _) => HandleCommentChanged(e);
        case ReactionChanged(_, _, _, _, _, _) => HandleReactionChanged(e);
        case AttachmentChanged(post) => DropKey(PostDetail(post));
      }
      forall r: Read ensures Drops(e, KeyOf(r)) <==> Touches(e, r) || Overreaches(e, r) { DropsExactly(e, r); }
    }
  }
}
