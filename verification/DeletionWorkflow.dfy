/** Deleting what hangs on a post: its comments, page by page over the set being emptied, then its files and reactions. */
module DeletionWorkflow {
  import opened Text
  import opened Lists
  import opened Events
  import opened ForumStore
  import AttachmentCoordinator

  const BATCH_SIZE := 500

  predicate ActiveOn(comments: map<int, Comment>, post: int, c: int) { c in comments && comments[c].post == post && comments[c].active }

  predicate Descending(ids: seq<int>) { forall i, j :: 0 <= i < j < |ids| ==> ids[i] > ids[j] }

  /** The ids are the post's active comments, newest first: each once, none missing. */
  ghost predicate ListsActive(comments: map<int, Comment>, post: int, ids: seq<int>) {
    Descending(ids) && forall c :: c in ids <==> ActiveOn(comments, post, c)
  }

  function Deactivated(comments: map<int, Comment>, ids: set<int>): map<int, Comment> {
    map c | c in comments :: if c in ids then comments[c].(active := false) else comments[c]
  }

  /** The tables after these comments and the reactions on them are gone. */
  function WithoutComments(rows: Rows, ids: set<int>): Rows {
    rows.(comments := Deactivated(rows.comments, ids), reactions := WithoutTarget(rows.reactions, CommentTarget, ids))
  }

  lemma WithoutMore(rows: Rows, a: set<int>, b: set<int>)
    ensures WithoutComments(WithoutComments(rows, a), b) == WithoutComments(rows, a + b)
  {
    assert Deactivated(Deactivated(rows.comments, a), b) == Deactivated(rows.comments, a + b);
    assert WithoutTarget(WithoutTarget(rows.reactions, CommentTarget, a), CommentTarget, b) == WithoutTarget(rows.reactions, CommentTarget, a + b);
  }

  lemma WithoutNone(rows: Rows)
    ensures WithoutComments(rows, {}) == rows
  {
    assert Deactivated(rows.comments, {}) == rows.comments;
    assert WithoutTarget(rows.reactions, CommentTarget, {}) == rows.reactions;
  }

  /** The next active comments of a post with ids below the cursor, newest first; a cursor of 0 starts at the top. */
  method SelectComments(db: Database, post: int, limit: nat, last: int) returns (r: Result<seq<int>>)
    ensures db.reliable ==> r.Ok?
    ensures r.Ok? ==> |r.value| <= limit && Descending(r.value)
    ensures r.Ok? ==> forall c :: c in r.value ==> ActiveOn(db.rows.comments, post, c) && (last <= 0 || c < last)
    ensures r.Ok? ==> forall c :: ActiveOn(db.rows.comments, post, c) && (last <= 0 || c < last) && c !in r.value ==>
      |r.value| == limit && forall d :: d in r.value ==> c < d
  {
    var failed := db.CallFails();
    if failed { return Err(RepositoryFailure); }
    var comments := db.rows.comments;
    var left := set c | c in comments && ActiveOn(comments, post, c) && (last <= 0 || c < last);
    var page: seq<int> := [];
    while |page| < limit && left != {}
      invariant |page| <= limit && Descending(page)
      invariant forall c :: ActiveOn(comments, post, c) && (last <= 0 || c < last) <==> c in left || c in page
      invariant forall c, d :: c in left && d in page ==> c < d
      decreases |left|
    {
      var m := MaxOf(left);
      forall k | 0 <= k < |page| ensures m < page[k] { assert page[k] in page; }
      left := left - {m};
      page := page + [m];
    }
    return Ok(page);
  }

  method MaxOf(ids: set<int>) returns (m: int)
    requires ids != {}
    ensures m in ids && forall i :: i in ids ==> i <= m
  {
    var list := ListOf(ids);
    m := list[0];
    for k := 1 to |list|
      invariant m in list && forall j :: 0 <= j < k ==> list[j] <= m
    {
      if list[k] > m { m := list[k]; }
    }
  }

  method DeleteReactionsByTarget(db: Database, target: TargetType, id: int) returns (ok: bool)
    modifies db`rows
    ensures db.reliable ==> ok
    ensures ok ==> db.rows == old(db.rows).(reactions := WithoutTarget(old(db.rows).reactions, target, {id}))
  {
    var failed := db.CallFails();
    if failed { return false; }
    db.rows := db.rows.(reactions := WithoutTarget(db.rows.reactions, target, {id}));
    return true;
  }

  method DeleteCommentRow(db: Database, id: int) returns (ok: bool)
    modifies db`rows
    ensures db.reliable ==> ok
    ensures ok ==> db.rows == old(db.rows).(comments := Deactivated(old(db.rows).comments, {id}))
  {
    var failed := db.CallFails();
    if failed { return false; }
    db.rows := db.rows.(comments := Deactivated(db.rows.comments, {id}));
    return true;
  }

  /** One page: for each comment its reactions first, then the comment. */
  method DeletePage(db: Database, page: seq<int>) returns (ok: bool)
    modifies db`rows
    ensures db.reliable ==> ok
    ensures ok ==> db.rows == WithoutComments(old(db.rows), SetOf(page))
  {
    WithoutNone(db.rows);
    assert SetOf(page[..0]) == {};
    for i := 0 to |page|
      invariant db.rows == WithoutComments(old(db.rows), SetOf(page[..i]))
    {
      assert page[..i + 1] == page[..i] + [page[i]] && SetOf(page[..i + 1]) == SetOf(page[..i]) + {page[i]};
      WithoutMore(old(db.rows), SetOf(page[..i]), {page[i]});
      var cleared := DeleteReactionsByTarget(db, CommentTarget, page[i]);
      if !cleared { return false; }
      var deleted := DeleteCommentRow(db, page[i]);
      if !deleted { return false; }
    }
    assert page[..|page|] == page;
    return true;
  }

  /** The ids so far are the newest active comments; all others are older than the last of them. */
  ghost predicate NewestFirst(comments: map<int, Comment>, post: int, ids: seq<int>, last: int) {
    && Descending(ids) && last == (if ids == [] then 0 else ids[|ids| - 1])
    && (forall c :: c in ids ==> ActiveOn(comments, post, c) && c > 0)
    && (forall c :: ActiveOn(comments, post, c) && c !in ids ==> c > 0 && (ids == [] || c < last))
  }

  lemma StillActive(comments: map<int, Comment>, post: int, ids: seq<int>, last: int, c: int)
    requires NewestFirst(comments, post, ids, last)
    ensures ActiveOn(Deactivated(comments, SetOf(ids)), post, c) && (last <= 0 || c < last) <==> ActiveOn(comments, post, c) && c !in ids
  {
  }

  /** The next page extends the list. */
  lemma PageExtends(comments: map<int, Comment>, post: int, ids: seq<int>, last: int, page: seq<int>, limit: nat)
    requires NewestFirst(comments, post, ids, last) && page != [] && Descending(page) && |page| <= limit
    requires forall c :: c in page ==> ActiveOn(comments, post, c) && c !in ids
    requires forall c :: ActiveOn(comments, post, c) && c !in ids && c !in page ==> |page| == limit && forall d :: d in page ==> c < d
    ensures NewestFirst(comments, post, ids + page, page[|page| - 1])
    ensures |page| < limit ==> ListsActive(comments, post, ids + page)
  {
    var more := ids + page;
    assert more[|more| - 1] == page[|page| - 1] && page[|page| - 1] in page;
    forall i, j | 0 <= i < |ids| <= j < |more| ensures more[i] > more[j] {
      assert more[i] in ids && more[j] in page && ids[i] >= ids[|ids| - 1];
    }
  }

  method DeletePostCommentsInBatches(db: Database, post: int) returns (r: Result<seq<int>>)
    requires forall c :: c in db.rows.comments ==> c > 0
    modifies db`rows
    ensures db.reliable ==> r.Ok?
    ensures r.Ok? ==> ListsActive(old(db.rows).comments, post, r.value)
    ensures r.Ok? ==> db.rows == WithoutComments(old(db.rows), SetOf(r.value))
  {
    ghost var comments := db.rows.comments;
    var last := 0;
    var ids: seq<int> := [];
    WithoutNone(db.rows);
    assert SetOf(ids) == {};
    while true
      invariant NewestFirst(comments, post, ids, last)
      invariant db.rows == WithoutComments(old(db.rows), SetOf(ids))
      decreases (set c | c in comments && ActiveOn(comments, post, c)) - SetOf(ids)
    {
      var page := SelectComments(db, post, BATCH_SIZE, last);
      if page.Err? { return Err(RepositoryFailure); }
      forall c ensures ActiveOn(db.rows.comments, post, c) && (last <= 0 || c < last) <==> ActiveOn(comments, post, c) && c !in ids {
        StillActive(comments, post, ids, last, c);
      }
      if |page.value| == 0 { return Ok(ids); }
      PageExtends(comments, post, ids, last, page.value, BATCH_SIZE);
      WithoutMore(old(db.rows), SetOf(ids), SetOf(page.value));
      assert SetOf(ids + page.value) == SetOf(ids) + SetOf(page.value);
      assert page.value[0] in page.value;
      ids := ids + page.value;
      var deleted := DeletePage(db, page.value);
      if !deleted { return Err(RepositoryFailure); }
      if |page.value| < BATCH_SIZE { return Ok(ids); }
      last := page.value[|page.value| - 1];
    }
  }

  method DeletePostArtifacts(db: Database, post: int) returns (r: Result<seq<int>>)
    requires forall c :: c in db.rows.comments ==> c > 0
    modifies db
    ensures db.reliable ==> r.Ok?
    ensures r.Ok? ==> ListsActive(old(db.rows).comments, post, r.value)
    ensures r.Ok? ==> db.rows == WithoutComments(old(db.rows), SetOf(r.value)).(
      attachments := db.rows.attachments,
      reactions := WithoutTarget(WithoutTarget(old(db.rows).reactions, CommentTarget, SetOf(r.value)), PostTarget, {post}))
    ensures r.Ok? ==> AttachmentCoordinator.Synced(old(db.rows).attachments, db.rows.attachments, post, {})
    ensures db.clock >= old(db.clock) && (r.Ok? ==> FreshMarks(old(db.rows).attachments, db.rows.attachments, old(db.clock), db.clock))
  {
    r := DeletePostCommentsInBatches(db, post);
    if r.Err? { return; }
    var orphaned := AttachmentCoordinator.OrphanPostAttachments(db, post);
    if !orphaned { return Err(RepositoryFailure); }
    var cleared := DeleteReactionsByTarget(db, PostTarget, post);
    if !cleared { return Err(RepositoryFailure); }
  }
}
