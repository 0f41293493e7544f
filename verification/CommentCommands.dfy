/** Writing and deleting comments: replies go one level deep, and a deleted comment takes its reactions with it. */
module CommentCommands {
  import opened Text
  import opened Events
  import opened ForumStore
  import opened DeletionWorkflow

  predicate PostVisible(rows: Rows, post: int) { post in rows.posts && rows.posts[post].status == Published }

  predicate Answerable(rows: Rows, post: int, parent: Option<int>) {
    parent.Some? ==> IsRoot(rows, parent.value, post) && rows.comments[parent.value].active
  }

  /** Field by field: the post is published, and what is answered, if anything, is an active comment on it that answers nothing itself. */
  predicate MayComment(rows: Rows, post: int, parent: Option<int>) {
    && post in rows.posts && rows.posts[post].status == Published
    && (parent.Some? ==> parent.value in rows.comments && var above := rows.comments[parent.value];
                         above.post == post && above.parent.None? && above.active)
  }

  ghost predicate Commented(before: Rows, after: Rows, id: int, row: Comment) {
    && id > 0 && id !in before.comments && row.active
    && PostVisible(before, row.post) && Answerable(before, row.post, row.parent)
    && after == before.(comments := before.comments[id := row], outbox := before.outbox + [CommentChanged(id, row.post, false)])
  }

  ghost predicate Uncommented(before: Rows, after: Rows, id: int) {
    && id in before.comments && before.comments[id].active
    && after == WithoutComments(before, {id}).(outbox := before.outbox + [CommentChanged(id, before.comments[id].post, true)])
  }

  /** Deleting a comment, field by field: it alone is inactive, and the reactions on it alone are gone. */
  lemma UncommentedMeans(before: Rows, after: Rows, id: int)
    requires Uncommented(before, after, id)
    ensures forall c :: c in after.comments <==> c in before.comments
    ensures forall c :: c in before.comments ==> after.comments[c] == if c == id then before.comments[c].(active := false) else before.comments[c]
    ensures forall k :: k in after.reactions <==> k in before.reactions && !(k.target.CommentTarget? && k.id == id)
    ensures forall k :: k in after.reactions ==> after.reactions[k] == before.reactions[k]
    ensures after.posts == before.posts && after.tags == before.tags && after.relations == before.relations && after.attachments == before.attachments
  {
  }

  lemma {:induction false} CommentedStaysSound(before: Rows, after: Rows, id: int, row: Comment)
    requires Sound(before) && Commented(before, after, id, row)
    ensures Sound(after)
  {
    CommentedReactions(before, after, id, row);
    CommentedComments(before, after, id, row);
    OthersStaySound(before, after);
  }

  lemma {:induction false} CommentedReactions(before: Rows, after: Rows, id: int, row: Comment)
    requires ReactionsSound(before) && Commented(before, after, id, row)
    ensures ReactionsSound(after)
  {
    QuietCommentEvent(before.outbox, id, row.post);
    forall k | k in after.reactions && k.target.CommentTarget? ensures k.id in after.comments && after.comments[k.id].active {
      assert k.id in before.comments && k.id != id;
    }
  }

  /** A comment written or edited is no news to the reactions. */
  lemma {:induction false} QuietCommentEvent(log: seq<Event>, comment: int, post: int)
    ensures Replay(log + [CommentChanged(comment, post, false)]) == Replay(log)
  {
    ReplayOne(log, CommentChanged(comment, post, false));
  }

  lemma CommentedComments(before: Rows, after: Rows, id: int, row: Comment)
    requires CommentsSound(before) && Commented(before, after, id, row)
    ensures CommentsSound(after)
  {
    forall c | c in after.comments && after.comments[c].parent.Some?
      ensures IsRoot(after, after.comments[c].parent.value, after.comments[c].post)
    {
      assert c != id ==> IsRoot(before, before.comments[c].parent.value, before.comments[c].post);
    }
  }

  /** Tags and attachments do not depend on comments, reactions or the log. */
  lemma OthersStaySound(before: Rows, after: Rows)
    requires TagsSound(before) && AttachmentsSound(before)
    requires after.posts == before.posts && after.tags == before.tags && after.relations == before.relations && after.attachments == before.attachments
    ensures TagsSound(after) && AttachmentsSound(after)
  {
  }

  lemma {:induction false} UncommentedStaysSound(before: Rows, after: Rows, id: int)
    requires Sound(before) && Uncommented(before, after, id)
    ensures Sound(after)
  {
    UncommentedReactions(before, after, id);
    UncommentedComments(before, after, id);
    OthersStaySound(before, after);
  }

  lemma {:induction false} UncommentedReactions(before: Rows, after: Rows, id: int)
    requires ReactionsSound(before) && Uncommented(before, after, id)
    ensures ReactionsSound(after)
  {
    ReplayOne(before.outbox, CommentChanged(id, before.comments[id].post, true));
  }

  lemma UncommentedComments(before: Rows, after: Rows, id: int)
    requires CommentsSound(before) && Uncommented(before, after, id)
    ensures CommentsSound(after)
  {
    forall c | c in after.comments && after.comments[c].parent.Some?
      ensures IsRoot(after, after.comments[c].parent.value, after.comments[c].post)
    {
      assert IsRoot(before, before.comments[c].parent.value, before.comments[c].post);
    }
  }

  method CreateComment(db: Database, content: string, author: int, post: int, parent: Option<int>) returns (r: Result<int>)
    requires Sound(db.rows)
    modifies db`rows
    ensures Sound(db.rows)
    ensures r.Err? ==> db.rows == old(db.rows)
    ensures db.reliable && !IsBlank(content) && MayComment(old(db.rows), post, parent) ==> r.Ok?
    ensures r.Ok? ==> MayComment(old(db.rows), post, parent)
    ensures r.Ok? ==> !IsBlank(content) && Commented(old(db.rows), db.rows, r.value, Comment(author, post, parent, true))
  {
    if IsBlank(content) { return Err(InvalidInput); }
    var saved := db.rows;
    r := CreateCommentTx(db, author, post, parent);
    if r.Err? { db.rows := saved; } else { CommentedStaysSound(saved, db.rows, r.value, Comment(author, post, parent, true)); }
  }

  method CreateCommentTx(db: Database, author: int, post: int, parent: Option<int>) returns (r: Result<int>)
    modifies db`rows
    ensures db.reliable && PostVisible(old(db.rows), post) && Answerable(old(db.rows), post, parent) ==> r.Ok?
    ensures r.Ok? ==> Commented(old(db.rows), db.rows, r.value, Comment(author, post, parent, true))
  {
    var refused := db.CheckRequester();
    if refused.Some? { return Err(refused.value); }
    if post !in db.rows.posts || db.rows.posts[post].status != Published { return Err(NotFound); }
    if parent.Some? {
      var failed := db.CallFails();
      if failed { return Err(RepositoryFailure); }
      if parent.value !in db.rows.comments || !db.rows.comments[parent.value].active { return Err(NotFound); }
      var above := db.rows.comments[parent.value];
      if above.post != post || above.parent.Some? { return Err(InvalidInput); }
    }
    var failed := db.CallFails();
    if failed { return Err(RepositoryFailure); }
    var id := db.FreshID(db.rows.comments.Keys);
    db.rows := db.rows.(comments := db.rows.comments[id := Comment(author, post, parent, true)]);
    var announced := db.Append(CommentChanged(id, post, false));
    if !announced { return Err(RepositoryFailure); }
    failed := db.CallFails();
    if failed { return Err(RepositoryFailure); }
    return Ok(id);
  }

  method DeleteComment(db: Database, id: int) returns (r: Result<()>)
    requires Sound(db.rows)
    modifies db`rows
    ensures Sound(db.rows)
    ensures r.Err? ==> db.rows == old(db.rows)
    ensures db.reliable && id in old(db.rows).comments && old(db.rows).comments[id].active ==> r.Ok?
    ensures r.Ok? ==> Uncommented(old(db.rows), db.rows, id)
  {
    var saved := db.rows;
    r := DeleteCommentTx(db, id);
    if r.Err? { db.rows := saved; } else { UncommentedStaysSound(saved, db.rows, id); }
  }

  method DeleteCommentTx(db: Database, id: int) returns (r: Result<()>)
    requires CommentsSound(db.rows)
    modifies db`rows
    ensures db.reliable && id in old(db.rows).comments && old(db.rows).comments[id].active ==> r.Ok?
    ensures r.Ok? ==> Uncommented(old(db.rows), db.rows, id)
  {
    if id !in db.rows.comments || !db.rows.comments[id].active { return Err(NotFound); }
    var comment := db.rows.comments[id];
    var refused := db.CheckRequester();
    if refused.Some? { return Err(refused.value); }
    if !PostVisible(db.rows, comment.post) { return Err(NotFound); }
    var deleted := DeleteCommentRow(db, id);
    if !deleted { return Err(RepositoryFailure); }
    var cleared := DeleteReactionsByTarget(db, CommentTarget, id);
    if !cleared { return Err(RepositoryFailure); }
    var announced := db.Append(CommentChanged(id, comment.post, true));
    if !announced { return Err(RepositoryFailure); }
    var failed := db.CallFails();
    if failed { return Err(RepositoryFailure); }
    return Ok(());
  }
}
