/** One cache holds the sessions and the cached answers: neither touches the other. */
module SharedCache {
  import opened Text
  import opened Events
  import opened Cache
  import opened CacheKeys
  import opened CacheEntries
  import opened Invalidation
  import opened Sessions

  lemma SessionBegins(user: int, token: string)
    ensures SessionKey(user, token) != "" && SessionKey(user, token)[0] == 's'
    ensures SessionPrefix(user) != "" && SessionPrefix(user)[0] == 's'
  {
  }

  lemma {:induction false} AnswerBegins(r: Read)
    ensures KeyOf(r) != "" && KeyOf(r)[0] != 's'
  {
    KindMarked(r);
    assert Mark(KeyOf(r)).0 == KeyOf(r)[0];
  }

  /** No query has the key of a session, and signing a user out everywhere drops no answer. */
  lemma {:induction false} AnswersAreNoSessions(user: int, token: string, r: Read)
    ensures KeyOf(r) != SessionKey(user, token)
    ensures !HasPrefix(KeyOf(r), SessionPrefix(user))
  {
    SessionBegins(user, token);
    AnswerBegins(r);
  }

  lemma NotUnder(k: string, prefix: string)
    requires k != "" && prefix != "" && k[0] != prefix[0]
    ensures !HasPrefix(k, prefix) && k != prefix
  {
  }

  /** Fixed heads of what events drop. */
  lemma {:induction false} ListingsSpare(board: int, k: string)
    requires k != "" && k[0] == 's'
    ensures !DropsListings(board, k) && !DropsRankings(k) && !DropsVisible(k) && !HasPrefix(k, BOARD_LIST_PREFIX)
  {
  }

  lemma {:induction false} TagsSpare(tags: seq<string>, k: string)
    requires k != "" && k[0] == 's'
    ensures !DropsTags(tags, k)
  {
    forall t | t in tags ensures !HasPrefix(k, TagPostListPrefix(t)) && !HasPrefix(k, RankedTagPostListPrefix(t)) {
      NotUnder(k, TagPostListPrefix(t));
      NotUnder(k, RankedTagPostListPrefix(t));
    }
  }

  lemma {:induction false} CommentsSpare(post: int, comments: seq<int>, k: string)
    requires k != "" && k[0] == 's'
    ensures !DropsOnDelete(post, comments, k) && k != PostDetail(post) && !HasPrefix(k, CommentListPrefix(post))
    ensures forall t, id :: k != ReactionList(t, id)
  {
    NotUnder(k, CommentListPrefix(post));
    forall t, id ensures k != ReactionList(t, id) { NotUnder(k, ReactionList(t, id)); }
  }

  /** No event signs anybody out. */
  lemma {:induction false} EventsSpareSessions(e: Event, user: int, token: string)
    ensures !Drops(e, SessionKey(user, token))
  {
    var k := SessionKey(user, token);
    SessionBegins(user, token);
    match e {
      case BoardChanged(board, _) => ListingsSpare(board, k);
      case PostChanged(post, board, tags, _, comments) =>
        ListingsSpare(board, k);
        TagsSpare(tags, k);
        CommentsSpare(post, comments, k);
      case CommentChanged(_, post, _) => ListingsSpare(0, k); CommentsSpare(post, [], k);
      case ReactionChanged(_, _, _, post, _, _) => ListingsSpare(0, k); CommentsSpare(post, [], k);
      case AttachmentChanged(post) => CommentsSpare(post, [], k);
    }
  }
}
