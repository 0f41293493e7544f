/** From an edit to the cache: once the event of an edit or a delete is handled, no cached answer shows the old post. */
module EditInvalidation {
  import opened Text
  import opened Events
  import opened Cache
  import opened CacheKeys
  import opened TagKeys
  import opened Invalidation
  import opened ForumStore
  import opened PostCommands
  import DeletionWorkflow

  /** The queries whose answer may hold a post of this board under these tags. */
  predicate MayShow(r: Read, post: int, board: int, tags: set<string>) {
    match r
    case PostListRead(b, _, _) => b == board
    case RankedPostListRead(b, _, _, _, _) => b == board
    case PostDetailRead(p) => p == post
    case TagPostListRead(t, _, _) => t in tags
    case RankedTagPostListRead(t, _, _, _, _) => t in tags
    case SearchRead(_, _, _) => true
    case SearchSortedRead(_, _, _, _, _) => true
    case FeedRead(_, _, _, _) => true
    case _ => false
  }

  /** Of a deleted post, also its comments and the reactions on it and on them. */
  predicate HungOn(r: Read, post: int, comments: set<int>) {
    match r
    case CommentListRead(p, _, _) => p == post
    case ReactionListRead(PostTarget, id) => id == post
    case ReactionListRead(CommentTarget, id) => id in comments
    case _ => false
  }

  /** A tag list with which one of these names collides. */
  ghost predicate Collided(tags: set<string>, r: Read) {
    (r.TagPostListRead? || r.RankedTagPostListRead?) && exists t :: t in tags && Collides(t, r)
  }

  /** What an event about a post with these tags is about. */
  predicate Concerns(e: Event, tags: set<string>, r: Read)
    requires e.PostChanged?
  {
    MayShow(r, e.post, e.board, tags) || (e.deleted && HungOn(r, e.post, SetOf(e.comments)))
  }

  lemma TouchesWhatItConcerns(e: Event, r: Read, tags: set<string>)
    requires e.PostChanged? && (forall n :: n in e.tags <==> n in tags)
    ensures Touches(e, r) <==> Concerns(e, tags, r)
  {
  }

  lemma OverreachIsCollision(e: Event, r: Read, tags: set<string>)
    requires e.PostChanged? && (forall n :: n in e.tags <==> n in tags)
    ensures Overreaches(e, r) <==> Collided(tags, r)
  {
  }

  /** Between colon-free names only a tag's own lists collide. */
  lemma {:induction false} PlainNamesCollideWithThemselves(tags: set<string>, r: Read)
    requires (forall n :: n in tags ==> ':' !in n) && ((r.TagPostListRead? || r.RankedTagPostListRead?) ==> ':' !in r.tag)
    ensures Collided(tags, r) <==> (r.TagPostListRead? || r.RankedTagPostListRead?) && r.tag in tags
  {
    if r.TagPostListRead? || r.RankedTagPostListRead? {
      forall t | t in tags ensures Collides(t, r) <==> r.tag == t { CollidesByName(t, r); }
    }
  }

  /** Handles the event of a post whose tags, old and new, are these. */
  method HandleNewest<V>(handler: CacheInvalidationHandler<V>, e: Event, ghost tags: set<string>)
    requires handler.cache.Valid()
    requires e.PostChanged? && forall n :: n in e.tags <==> n in tags
    modifies handler.cache
    ensures handler.cache.Valid()
    ensures forall r: Read {:trigger KeyOf(r)} :: Concerns(e, tags, r) ==> KeyOf(r) !in handler.cache.store
    ensures forall r: Read {:trigger KeyOf(r)} :: !Concerns(e, tags, r) && !Collided(tags, r) && KeyOf(r) in old(handler.cache.store) ==>
      KeyOf(r) in handler.cache.store && handler.cache.store[KeyOf(r)] == old(handler.cache.store)[KeyOf(r)]
  {
    handler.Handle(e);
    forall r: Read | Concerns(e, tags, r) ensures KeyOf(r) !in handler.cache.store {
      TouchesWhatItConcerns(e, r, tags);
    }
    forall r: Read | !Concerns(e, tags, r) && !Collided(tags, r) && KeyOf(r) in old(handler.cache.store)
      ensures KeyOf(r) in handler.cache.store && handler.cache.store[KeyOf(r)] == old(handler.cache.store)[KeyOf(r)]
    {
      TouchesWhatItConcerns(e, r, tags);
      OverreachIsCollision(e, r, tags);
    }
  }

  /** An edit and then its event: gone are all answers under the old tags or the new; other boards, posts and tags keep
      theirs, but for tags whose lists collide with an old or new name. */
  method EditAndInvalidate<V>(db: Database, handler: CacheInvalidationHandler<V>, post: int, title: string, content: string, tags: seq<string>)
    returns (r: Result<()>)
    requires Sound(db.rows) && handler.cache.Valid()
    modifies db, handler.cache
    ensures Sound(db.rows) && handler.cache.Valid()
    ensures r.Err? ==> db.rows == old(db.rows) && handler.cache.store == old(handler.cache.store)
    ensures r.Ok? ==> Edited(old(db.rows), db.rows, post, title, content, tags)
    ensures r.Ok? ==> forall q: Read {:trigger KeyOf(q)} ::
      MayShow(q, post, old(db.rows).posts[post].board, ActiveTags(old(db.rows), post) + ActiveTags(db.rows, post)) ==> KeyOf(q) !in handler.cache.store
    ensures r.Ok? ==> forall q: Read {:trigger KeyOf(q)} ::
      !MayShow(q, post, old(db.rows).posts[post].board, ActiveTags(old(db.rows), post) + ActiveTags(db.rows, post)) ==>
        !Collided(ActiveTags(old(db.rows), post) + ActiveTags(db.rows, post), q) && KeyOf(q) in old(handler.cache.store) ==>
          KeyOf(q) in handler.cache.store && handler.cache.store[KeyOf(q)] == old(handler.cache.store)[KeyOf(q)]
  {
    ghost var before := db.rows;
    r := UpdatePost(db, post, title, content, tags);
    if r.Err? { return; }
    var e := db.rows.outbox[|db.rows.outbox| - 1];
    assert e == PostChanged(post, before.posts[post].board, e.tags, false, []);
    HandleNewest(handler, e, ActiveTags(before, post) + ActiveTags(db.rows, post));
  }

  /** The active comments of a post. */
  function ActiveComments(rows: Rows, post: int): set<int> { set c | c in rows.comments && DeletionWorkflow.ActiveOn(rows.comments, post, c) }

  lemma ListedAreActive(rows: Rows, post: int, ids: seq<int>)
    requires DeletionWorkflow.ListsActive(rows.comments, post, ids)
    ensures SetOf(ids) == ActiveComments(rows, post)
  {
    forall c ensures c in SetOf(ids) <==> c in ActiveComments(rows, post) {
      assert c in ids <==> DeletionWorkflow.ActiveOn(rows.comments, post, c);
    }
  }

  /** A delete and then its event: gone are also the comment list and every reaction list of the post and its comments;
      everything else stays, but for tags whose lists collide. */
  method DeleteAndInvalidate<V>(db: Database, handler: CacheInvalidationHandler<V>, post: int) returns (r: Result<()>)
    requires Sound(db.rows) && handler.cache.Valid()
    modifies db, handler.cache
    ensures Sound(db.rows) && handler.cache.Valid()
    ensures r.Err? ==> db.rows == old(db.rows) && handler.cache.store == old(handler.cache.store)
    ensures r.Ok? ==> Removed(old(db.rows), db.rows, post)
    ensures r.Ok? ==> forall q: Read {:trigger KeyOf(q)} ::
      MayShow(q, post, old(db.rows).posts[post].board, ActiveTags(old(db.rows), post)) || HungOn(q, post, ActiveComments(old(db.rows), post)) ==>
        KeyOf(q) !in handler.cache.store
    ensures r.Ok? ==> forall q: Read {:trigger KeyOf(q)} ::
      !MayShow(q, post, old(db.rows).posts[post].board, ActiveTags(old(db.rows), post)) && !HungOn(q, post, ActiveComments(old(db.rows), post)) ==>
        !Collided(ActiveTags(old(db.rows), post), q) && KeyOf(q) in old(handler.cache.store) ==>
          KeyOf(q) in handler.cache.store && handler.cache.store[KeyOf(q)] == old(handler.cache.store)[KeyOf(q)]
  {
    ghost var before := db.rows;
    r := DeletePost(db, post);
    if r.Err? { return; }
    var e := db.rows.outbox[|db.rows.outbox| - 1];
    assert e == PostChanged(post, before.posts[post].board, e.tags, true, e.comments);
    assert DeletionWorkflow.ListsActive(before.comments, post, e.comments);
    ListedAreActive(before, post, e.comments);
    HandleNewest(handler, e, ActiveTags(before, post));
  }
}
