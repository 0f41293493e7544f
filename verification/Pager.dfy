/** Following the cursors a list hands out, and what each list of posts shows when they are followed. */
module Pager {
  import opened Text
  import opened FilteredWalk
  import opened PostQuery

  /** A list as its reader sees it: a cursor text in, a page out. */
  type Answer = string -> Result<PostList>

  function IDs<T>(id: T -> int, items: seq<T>): seq<int> { seq(|items|, i requires 0 <= i < |items| => id(items[i])) }

  /** At most `n` pages, each asked for with the cursor of the one before. */
  function Follow(answer: Answer, cursor: string, n: nat): seq<PostList>
    decreases n
  {
    if n == 0 then []
    else match answer(cursor)
      case Err(_) => []
      case Ok(list) =>
        if list.hasMore && list.nextCursor.Some? then [list] + Follow(answer, list.nextCursor.value, n - 1) else [list]
  }

  /** A next cursor that survives trimming and is there exactly when more follows. */
  predicate HasCleanCursor(list: PostList) {
    && list.nextCursor.Some? == list.hasMore
    && (list.hasMore ==> list.nextCursor.value != "" && TrimSpace(list.nextCursor.value) == list.nextCursor.value)
  }

  /** The answer to one readable cursor: the page after its key, and a printed cursor that reads as the key of the last row. */
  ghost predicate ServesPage<T(!new)>(answer: Answer, means: (string, Option<Key>) -> bool, rows: seq<T>, key: T -> Key, keep: T -> bool,
                                id: T -> int, limit: nat, cursor: string, from: Option<Key>)
    requires limit >= 1
  {
    var page := PageOf(After(rows, key, from), keep, limit);
    && answer(cursor).Ok?
    && var list := answer(cursor).value;
    && list.postIDs == IDs(id, page.items) && list.hasMore == page.hasMore && HasCleanCursor(list)
    && (page.hasMore ==> means(list.nextCursor.value, Some(key(page.items[limit - 1]))))
  }

  /** A list over `rows` whose pages and cursors work as intended from every cursor it reads. */
  ghost predicate IsPager<T(!new)>(answer: Answer, means: (string, Option<Key>) -> bool, rows: seq<T>, key: T -> Key, keep: T -> bool, id: T -> int, limit: nat) {
    && limit >= 1 && Descending(rows, key) && means("", None)
    && forall cursor, from {:trigger ServesPage(answer, means, rows, key, keep, id, limit, cursor, from)} ::
         means(cursor, from) ==> ServesPage(answer, means, rows, key, keep, id, limit, cursor, from)
  }

  /** Page i of a complete walk over `kept`. */
  ghost predicate IsPage(list: PostList, ids: seq<int>, limit: nat, i: nat)
    requires limit >= 1
  {
    && list.postIDs == Slice(ids, limit, i)
    && list.hasMore == (i < PageCount(|ids|, limit) - 1) && HasCleanCursor(list)
  }

  lemma SliceOfIDs<T>(id: T -> int, kept: seq<T>, limit: nat, i: nat)
    ensures IDs(id, Slice(kept, limit, i)) == Slice(IDs(id, kept), limit, i)
  {
  }

  /** A page as answered and the page it stands for. */
  predicate Shows<T>(list: PostList, page: Page<T>, id: T -> int) {
    list.postIDs == IDs(id, page.items) && list.hasMore == page.hasMore && HasCleanCursor(list)
  }

  /** The first `n` pages of a walk, as answered. */
  ghost predicate Tracks<T>(pages: seq<PostList>, walk: seq<Page<T>>, id: T -> int, n: nat) {
    |pages| == (if n < |walk| then n else |walk|) && forall i :: 0 <= i < |pages| ==> Shows(pages[i], walk[i], id)
  }

  /** One step of the walk: the answer, and where its cursor leads. */
  lemma Served<T(!new)>(answer: Answer, means: (string, Option<Key>) -> bool, rows: seq<T>, key: T -> Key, keep: T -> bool,
                        id: T -> int, limit: nat, cursor: string, from: Option<Key>)
    returns (list: PostList, page: Page<T>)
    requires IsPager(answer, means, rows, key, keep, id, limit) && means(cursor, from)
    ensures answer(cursor) == Ok(list) && page == PageOf(After(rows, key, from), keep, limit) && Shows(list, page, id)
    ensures page.hasMore ==>
      && |page.items| == limit && means(list.nextCursor.value, Some(key(page.items[limit - 1])))
      && Walk(rows, key, keep, limit, from) == [page] + Walk(rows, key, keep, limit, Some(key(page.items[limit - 1])))
    ensures !page.hasMore ==> Walk(rows, key, keep, limit, from) == [page]
  {
    assert ServesPage(answer, means, rows, key, keep, id, limit, cursor, from);
    list, page := answer(cursor).value, PageOf(After(rows, key, from), keep, limit);
    WalkStep(rows, key, keep, limit, from);
  }

  lemma {:induction false} FollowFrom<T(!new)>(answer: Answer, means: (string, Option<Key>) -> bool, rows: seq<T>, key: T -> Key, keep: T -> bool,
                                               id: T -> int, limit: nat, cursor: string, from: Option<Key>, n: nat)
    requires IsPager(answer, means, rows, key, keep, id, limit) && means(cursor, from)
    ensures Tracks(Follow(answer, cursor, n), Walk(rows, key, keep, limit, from), id, n)
    decreases n
  {
    if n > 0 {
      var list, page := Served(answer, means, rows, key, keep, id, limit, cursor, from);
      var whole := Walk(rows, key, keep, limit, from);
      if page.hasMore {
        var next := Some(key(page.items[limit - 1]));
        FollowFrom(answer, means, rows, key, keep, id, limit, list.nextCursor.value, next, n - 1);
        FirstPage(answer, cursor, n, list, Follow(answer, list.nextCursor.value, n - 1), whole, page, Walk(rows, key, keep, limit, next), id);
      } else {
        OnlyPage(answer, cursor, n, list, whole, page, id);
      }
    }
  }

  lemma OnlyPage<T>(answer: Answer, cursor: string, n: nat, list: PostList, whole: seq<Page<T>>, page: Page<T>, id: T -> int)
    requires n > 0 && answer(cursor) == Ok(list) && !list.hasMore && whole == [page] && Shows(list, page, id)
    ensures Tracks(Follow(answer, cursor, n), whole, id, n)
  {
  }

  lemma FirstPage<T>(answer: Answer, cursor: string, n: nat, list: PostList, pages: seq<PostList>, whole: seq<Page<T>>,
                     page: Page<T>, walk: seq<Page<T>>, id: T -> int)
    requires n > 0 && answer(cursor) == Ok(list) && list.hasMore && list.nextCursor.Some?
    requires pages == Follow(answer, list.nextCursor.value, n - 1) && whole == [page] + walk && Shows(list, page, id)
    requires Tracks(pages, walk, id, n - 1)
    ensures Tracks(Follow(answer, cursor, n), whole, id, n)
  {
    var all := Follow(answer, cursor, n);
    assert all == [list] + pages;
    forall i | 0 <= i < |all| ensures Shows(all[i], whole[i], id) {
      if i > 0 { assert all[i] == pages[i - 1] && whole[i] == walk[i - 1]; }
    }
  }

  /**
   Following cursors from a blank one shows the filtered list and nothing else: page by page its slices, in order,
   ending after exactly as many pages as the list needs; asking for more pages changes nothing.
   */
  lemma FollowShowsAll<T(!new)>(answer: Answer, means: (string, Option<Key>) -> bool, rows: seq<T>, key: T -> Key, keep: T -> bool,
                          id: T -> int, limit: nat, n: nat)
    requires IsPager(answer, means, rows, key, keep, id, limit)
    ensures
      var ids := IDs(id, Filter(rows, keep));
      var pages := Follow(answer, "", n);
      && |pages| == (if n < PageCount(|ids|, limit) then n else PageCount(|ids|, limit))
      && (forall i :: 0 <= i < |pages| ==> IsPage(pages[i], ids, limit, i))
      && (n >= PageCount(|ids|, limit) ==> Joined(pages) == ids)
  {
    var kept := Filter(rows, keep);
    var ids := IDs(id, kept);
    FollowFrom(answer, means, rows, key, keep, id, limit, "", None, n);
    WalkIsSlicing(rows, key, keep, limit, None);
    var pages := Follow(answer, "", n);
    forall i | 0 <= i < |pages| ensures IsPage(pages[i], ids, limit, i) { SliceOfIDs(id, kept, limit, i); }
    if n >= PageCount(|ids|, limit) { JoinedSlices(pages, ids, limit); }
  }

  function Joined(pages: seq<PostList>): seq<int> {
    if pages == [] then [] else Joined(pages[..|pages| - 1]) + pages[|pages| - 1].postIDs
  }

  lemma MulStep(k: nat, limit: nat)
    ensures (k + 1) * limit == k * limit + limit
  {
  }

  lemma TakeOn(ids: seq<int>, at: nat, limit: nat)
    ensures Take(ids, at) + SliceAt(ids, at, limit) == Take(ids, at + limit)
  {
  }

  lemma JoinStep(done: seq<int>, next: seq<int>, ids: seq<int>, limit: nat, k: nat)
    requires done == Take(ids, k * limit) && next == Slice(ids, limit, k)
    ensures done + next == Take(ids, (k + 1) * limit)
  {
    MulStep(k, limit);
    TakeOn(ids, k * limit, limit);
  }

  lemma {:induction false} JoinedPrefix(pages: seq<PostList>, ids: seq<int>, limit: nat, k: nat)
    requires limit >= 1 && k == |pages| && forall i :: 0 <= i < |pages| ==> pages[i].postIDs == Slice(ids, limit, i)
    ensures Joined(pages) == Take(ids, k * limit)
  {
    if k > 0 {
      JoinedPrefix(pages[..k - 1], ids, limit, k - 1);
      JoinStep(Joined(pages[..k - 1]), pages[k - 1].postIDs, ids, limit, k - 1);
    }
  }

  lemma PagesReachEnd(total: nat, limit: nat)
    requires limit >= 1
    ensures total <= PageCount(total, limit) * limit
    decreases total
  {
    if total > limit { PagesReachEnd(total - limit, limit); }
  }

  lemma JoinedSlices(pages: seq<PostList>, ids: seq<int>, limit: nat)
    requires limit >= 1 && |pages| == PageCount(|ids|, limit)
    requires forall i :: 0 <= i < |pages| ==> IsPage(pages[i], ids, limit, i)
    ensures Joined(pages) == ids
  {
    JoinedPrefix(pages, ids, limit, |pages|);
    PagesReachEnd(|ids|, limit);
  }
}
