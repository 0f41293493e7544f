/** One fixed snapshot of the repositories behind the post lists, and the orders their cursors follow. */
module PostStore {
  import opened Text
  import opened Numerals
  import opened Cursors
  import opened FilteredWalk

  datatype Status = Draft | Published | Deleted

  datatype Post = Post(id: int, boardID: int, status: Status)

  datatype Board = Board(hidden: bool)

  /** A ranked row names a post and repeats its board; the score is a 64-bit float pattern. */
  datatype FeedResult = FeedResult(postID: int, boardID: int, scoreBits: nat, publishedAt: int)

  datatype SearchResult = SearchResult(post: Post, scoreBits: nat)

  datatype Store = Store(
    posts: map<int, Post>,
    newest: seq<int>,                            // ids of all posts, newest first
    boards: map<int, Board>,
    boardIDs: seq<int>,                          // ids of all boards, newest first
    tagIDs: map<string, int>,                    // tag name to tag id
    tagged: map<int, seq<int>>,                  // active relations of a tag: post ids, newest first
    ranked: map<(string, string), seq<FeedResult>>, // one ranking per sort and window
    found: map<string, seq<SearchResult>>        // answers of the search index per query
  )

  const LATEST := "latest"
  const RELEVANCE := "relevance"

  /** Order of finite floats by bit pattern: sign and magnitude, both zeros equal. */
  function ScoreOrder(bits: nat): int { if bits < TWO_63 then bits else TWO_63 - bits }

  /** A 64-bit pattern that is not a NaN. */
  predicate IsScore(bits: nat) { bits < TWO_64 && -0x7FF0_0000_0000_0000 <= ScoreOrder(bits) <= 0x7FF0_0000_0000_0000 }

  function FeedOrder(sort: string, scoreBits: nat, publishedAt: int, postID: int): Key {
    if sort == LATEST then Key(0, publishedAt, postID) else Key(ScoreOrder(scoreBits), publishedAt, postID)
  }

  function FeedKey(sort: string): FeedResult -> Key { (r: FeedResult) => FeedOrder(sort, r.scoreBits, r.publishedAt, r.postID) }

  function FeedFrom(cursor: Option<FeedCursor>): Option<Key> {
    match cursor
    case None => None
    case Some(c) => Some(FeedOrder(c.sort, c.scoreBits, c.publishedAt, c.postID))
  }

  function SearchKey(): SearchResult -> Key { (r: SearchResult) => Key(ScoreOrder(r.scoreBits), 0, r.post.id) }

  function SearchFrom(cursor: Option<SearchCursor>): Option<Key> {
    match cursor
    case None => None
    case Some(c) => Some(Key(ScoreOrder(c.scoreBits), 0, c.postID))
  }

  function PostKey(): Post -> Key { (p: Post) => Key(0, 0, p.id) }

  function IdKey(): int -> Key { (id: int) => Key(0, 0, id) }

  /** Ids are positive: zero asks from the start. */
  function IdFrom(lastID: int): Option<Key> { if lastID > 0 then Some(Key(0, 0, lastID)) else None }

  predicate IsID(n: int) { 0 < n < TWO_63 }

  predicate Found(db: Store, id: int) { id in db.posts && db.posts[id].status != Deleted }

  predicate IsPublished(db: Store, id: int) { id in db.posts && db.posts[id].status == Published }

  /** No viewer: a board shows only when it exists and is not hidden. */
  predicate BoardVisible(db: Store, boardID: int) { boardID in db.boards && !db.boards[boardID].hidden }

  /** What a ranked list shows: the post is found, its board is visible, and the list includes it. */
  function FeedKeep(db: Store, wanted: Post -> bool): FeedResult -> bool {
    (r: FeedResult) => Found(db, r.postID) && BoardVisible(db, r.boardID) && wanted(db.posts[r.postID])
  }

  function PostKeep(db: Store): Post -> bool { (p: Post) => BoardVisible(db, p.boardID) }

  function SearchKeep(db: Store): SearchResult -> bool { (r: SearchResult) => BoardVisible(db, r.post.boardID) }

  /** The published posts among `ids`, in the same order. */
  function PublishedOf(db: Store, ids: seq<int>): (posts: seq<Post>)
    ensures forall p :: p in posts ==> exists id :: id in ids && IsPublished(db, id) && p == db.posts[id]
  {
    if ids == [] then []
    else
      var id := ids[|ids| - 1];
      PublishedOf(db, ids[..|ids| - 1]) + if IsPublished(db, id) then [db.posts[id]] else []
  }

  function TagIDs(db: Store, tagID: int): seq<int> { if tagID in db.tagged then db.tagged[tagID] else [] }

  function TagRows(db: Store, tagID: int): seq<Post> { PublishedOf(db, TagIDs(db, tagID)) }

  /** The published posts of a board, newest first. */
  function BoardRows(db: Store, boardID: int): seq<Post> {
    Filter(PublishedOf(db, db.newest), (p: Post) => p.boardID == boardID)
  }

  function FeedRows(db: Store, sort: string, window: string): seq<FeedResult> {
    if (sort, window) in db.ranked then db.ranked[(sort, window)] else []
  }

  function FoundRows(db: Store, query: string): seq<SearchResult> { if query in db.found then db.found[query] else [] }

  /** A ranked row that can be printed as a cursor, and whose post, when found, is published on the row's board. */
  ghost predicate ValidFeedRow(db: Store, r: FeedResult) {
    && IsScore(r.scoreBits) && IsInt64(r.publishedAt) && IsID(r.postID)
    && (Found(db, r.postID) ==> IsPublished(db, r.postID) && db.posts[r.postID].boardID == r.boardID)
  }

  /** What the repository ports promise of a snapshot. */
  ghost predicate Valid(db: Store) {
    && (forall id :: id in db.posts ==> IsID(id) && db.posts[id].id == id)
    && Descending(db.boardIDs, IdKey()) && (forall b :: b in db.boardIDs <==> b in db.boards)
    && Descending(db.newest, IdKey()) && (forall id :: id in db.newest <==> id in db.posts)
    && (forall t :: t in db.tagged ==> Descending(db.tagged[t], IdKey()) && forall i :: 0 <= i < |db.tagged[t]| ==> IsID(db.tagged[t][i]))
    && (forall q :: q in db.ranked ==>
          Descending(db.ranked[q], FeedKey(q.0)) && forall i :: 0 <= i < |db.ranked[q]| ==> ValidFeedRow(db, db.ranked[q][i]))
    && (forall q :: q in db.found ==>
          Descending(db.found[q], SearchKey())
          && forall i :: 0 <= i < |db.found[q]| ==> IsScore(db.found[q][i].scoreBits) && IsID(db.found[q][i].post.id))
  }

  /** The ports: at most `limit` rows strictly after the cursor. */
  function ListFeed(db: Store, sort: string, window: string, limit: nat, cursor: Option<FeedCursor>): seq<FeedResult> {
    Take(After(FeedRows(db, sort, window), FeedKey(sort), FeedFrom(cursor)), limit)
  }

  function SearchPublishedPosts(db: Store, query: string, limit: nat, cursor: Option<SearchCursor>): seq<SearchResult> {
    Take(After(FoundRows(db, query), SearchKey(), SearchFrom(cursor)), limit)
  }

  function SelectPublishedPostsByTag(db: Store, tagID: int, limit: nat, lastID: int): seq<Post> {
    Take(After(TagRows(db, tagID), PostKey(), IdFrom(lastID)), limit)
  }

  function SelectPosts(db: Store, boardID: int, limit: nat, lastID: int): seq<Post> {
    Take(After(BoardRows(db, boardID), PostKey(), IdFrom(lastID)), limit)
  }

  function SelectActiveByTagID(db: Store, tagID: int, limit: nat, lastID: int): seq<int> {
    Take(After(TagIDs(db, tagID), IdKey(), IdFrom(lastID)), limit)
  }

  /** The newest boards that are not hidden. */
  function SelectBoardList(db: Store, limit: nat): seq<int> { Take(Filter(db.boardIDs, (b: int) => BoardVisible(db, b)), limit) }

  function CountPublishedPostsByBoardID(db: Store, boardID: int): nat { |BoardRows(db, boardID)| }

  function SelectPostsByIDs(db: Store, ids: seq<int>): map<int, Post> { map id | id in ids && Found(db, id) :: db.posts[id] }

  function SelectBoardsByIDs(db: Store, ids: seq<int>): map<int, Board> { map id | id in ids && id in db.boards :: db.boards[id] }

  /** Published posts of a tag come in the order of its relations. */
  lemma {:induction false} PublishedDescends(db: Store, ids: seq<int>)
    requires Valid(db) && Descending(ids, IdKey())
    ensures Descending(PublishedOf(db, ids), PostKey())
  {
    if ids != [] {
      var init := ids[..|ids| - 1];
      PublishedDescends(db, init);
      var rows := PublishedOf(db, ids);
      var head := PublishedOf(db, init);
      forall i, j | 0 <= i < j < |rows| ensures Below(PostKey()(rows[j]), PostKey()(rows[i])) {
        if j == |head| {
          assert head[i] in head;
          var id :| id in init && IsPublished(db, id) && head[i] == db.posts[id];
          var k :| 0 <= k < |init| && init[k] == id;
          assert Below(IdKey()(ids[|ids| - 1]), IdKey()(ids[k]));
        }
      }
    }
  }
}
