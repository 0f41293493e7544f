/** Writing, publishing, editing and deleting posts: each one transaction over posts, tags, attachments and the outbox. */
module PostCommands {
  import opened Text
  import opened Events
  import opened Embeds
  import opened ForumStore
  import opened AttachmentCoordinator
  import opened TagCoordinator
  import opened DeletionWorkflow

  /** A post that commands can still reach. */
  predicate Editable(rows: Rows, post: int) { post in rows.posts && rows.posts[post].status != Deleted }

  /** Everything a text embeds may be embedded by the post. */
  ghost predicate AllUsable(rows: Rows, post: int, content: string) {
    forall r :: r in Refs(content) ==> Usable(rows.attachments, post, r)
  }

  /** The same, field by field: each embedded id is that of a row of the post that is not waiting to be deleted. */
  ghost predicate MayEmbed(rows: Rows, post: int, content: string) {
    forall r :: r in Refs(content) ==>
      exists a :: a in rows.attachments && rows.attachments[a].uuid == r && rows.attachments[a].post == post && rows.attachments[a].pendingDeleteAt.None?
  }

  /** No command reaches a post that is not there or is deleted. */
  predicate Gone(rows: Rows, post: int) { post in rows.posts ==> rows.posts[post].status == Deleted }

  ghost predicate IsForms(names: set<string>, tags: seq<string>) { forall n :: n in names <==> HasForm(tags, n) }

  /** A new post with its tags; only a published one is announced. */
  ghost predicate Created(before: Rows, after: Rows, post: int, row: Post, tags: seq<string>) {
    && post !in before.posts && after.posts == before.posts[post := row]
    && IsForms(ActiveTags(after, post), tags)
    && (forall other :: other != post ==> ActiveTags(after, other) == ActiveTags(before, other))
    && after.attachments == before.attachments && after.comments == before.comments && after.reactions == before.reactions
    && (row.status == Draft ==> after.outbox == before.outbox)
    && (row.status == Published ==> exists names: seq<string> ::
          after.outbox == before.outbox + [PostChanged(post, row.board, names, false, [])] && forall n :: n in names <==> HasForm(tags, n))
  }

  /** The text changed, the tags are the new ones, the files follow the text, and the event names old and new tags. */
  ghost predicate Edited(before: Rows, after: Rows, post: int, title: string, content: string, tags: seq<string>) {
    && Editable(before, post)
    && after.posts == before.posts[post := before.posts[post].(title := title, content := content)]
    && AllUsable(before, post, content)
    && Synced(before.attachments, after.attachments, post, Refs(content))
    && IsForms(ActiveTags(after, post), tags)
    && (forall other :: other != post ==> ActiveTags(after, other) == ActiveTags(before, other))
    && after.comments == before.comments && after.reactions == before.reactions
    && exists names: seq<string> ::
         && after.outbox == before.outbox + [PostChanged(post, before.posts[post].board, names, false, [])]
         && forall n :: n in names <==> n in ActiveTags(before, post) || n in ActiveTags(after, post)
  }

  ghost predicate PublishedNow(before: Rows, after: Rows, post: int) {
    && Editable(before, post)
    && after.posts == before.posts[post := before.posts[post].(status := Published)]
    && AllUsable(before, post, before.posts[post].content)
    && Synced(before.attachments, after.attachments, post, Refs(before.posts[post].content))
    && after.tags == before.tags && after.relations == before.relations
    && after.comments == before.comments && after.reactions == before.reactions
    && exists names: seq<string> ::
         && after.outbox == before.outbox + [PostChanged(post, before.posts[post].board, names, false, [])]
         && forall n :: n in names <==> n in ActiveTags(before, post)
  }

  /** No relation of the post is active any more; the rows stay. */
  function Untagged(relations: map<(int, int), bool>, post: int): map<(int, int), bool> {
    map r | r in relations :: relations[r] && r.0 != post
  }

  /** The post, its comments, all reactions on either, and its tags are gone; its files are orphans; the event lists them. */
  ghost predicate Removed(before: Rows, after: Rows, post: int) {
    && Editable(before, post)
    && after.posts == before.posts[post := before.posts[post].(status := Deleted)]
    && after.tags == before.tags
    && after.relations == Untagged(before.relations, post)
    && Synced(before.attachments, after.attachments, post, {})
    && exists names: seq<string>, ids: seq<int> ::
         && after.outbox == before.outbox + [PostChanged(post, before.posts[post].board, names, true, ids)]
         && (forall n :: n in names <==> n in ActiveTags(before, post))
         && ListsActive(before.comments, post, ids)
         && after.comments == Deactivated(before.comments, SetOf(ids))
         && after.reactions == WithoutTarget(WithoutTarget(before.reactions, CommentTarget, SetOf(ids)), PostTarget, {post})
  }

  // Each of these keeps the tables sound.

  lemma {:induction false} QuietEvent(before: Rows, after: Rows, e: Event)
    requires after.outbox == before.outbox + [e] && after.reactions == before.reactions && Replay(before.outbox) == before.reactions
    requires e.PostChanged? ==> !e.deleted
    requires e.CommentChanged? ==> !e.deleted
    requires !e.ReactionChanged?
    ensures Replay(after.outbox) == after.reactions
  {
    ReplayOne(before.outbox, e);
  }

  lemma {:induction false} CreatedStaysSound(before: Rows, after: Rows, post: int, row: Post, tags: seq<string>)
    requires Sound(before) && Created(before, after, post, row, tags) && TagsSound(after)
    requires row.status == Draft || row.status == Published
    requires Refs(row.content) == {}
    ensures Sound(after)
  {
    if row.status == Published {
      var names: seq<string> :| after.outbox == before.outbox + [PostChanged(post, row.board, names, false, [])];
      QuietEvent(before, after, PostChanged(post, row.board, names, false, []));
    }
    assert CommentsSound(after);
    assert EmbedsBacked(after);
  }

  lemma {:induction false} SyncedStaysSound(before: Rows, after: Rows, post: int, content: string)
    requires AttachmentsSound(before) && post in before.posts
    requires Synced(before.attachments, after.attachments, post, Refs(content))
    requires AllUsable(before, post, content)
    requires post in after.posts && after.posts[post].content == content
    requires forall p :: p in after.posts <==> p in before.posts
    requires forall p :: p in before.posts && p != post ==> after.posts[p] == before.posts[p]
    ensures AttachmentsSound(after)
  {
    SyncKeepsRows(before.attachments, after.attachments, post, Refs(content));
    forall p, r | p in after.posts && after.posts[p].status != Deleted && r in Refs(after.posts[p].content)
      ensures Backed(after.attachments, p, r)
    {
      if p == post { SyncBacks(before.attachments, after.attachments, post, Refs(content), r); }
      else { SyncSpares(before.attachments, after.attachments, post, Refs(content), p, r); }
    }
  }

  lemma {:induction false} EditedStaysSound(before: Rows, after: Rows, post: int, title: string, content: string, tags: seq<string>)
    requires Sound(before) && Edited(before, after, post, title, content, tags) && TagsSound(after)
    ensures Sound(after)
  {
    var names: seq<string> :| after.outbox == before.outbox + [PostChanged(post, before.posts[post].board, names, false, [])];
    QuietEvent(before, after, PostChanged(post, before.posts[post].board, names, false, []));
    SyncedStaysSound(before, after, post, content);
  }

  lemma {:induction false} PublishedStaysSound(before: Rows, after: Rows, post: int)
    requires Sound(before) && PublishedNow(before, after, post)
    ensures Sound(after)
  {
    var names: seq<string> :| after.outbox == before.outbox + [PostChanged(post, before.posts[post].board, names, false, [])];
    QuietEvent(before, after, PostChanged(post, before.posts[post].board, names, false, []));
    SyncedStaysSound(before, after, post, before.posts[post].content);
  }

  lemma {:induction false} RemovedStaysSound(before: Rows, after: Rows, post: int)
    requires Sound(before) && Removed(before, after, post)
    ensures Sound(after)
  {
    var names: seq<string>, ids: seq<int> :|
      && after.outbox == before.outbox + [PostChanged(post, before.posts[post].board, names, true, ids)]
      && ListsActive(before.comments, post, ids)
      && after.comments == Deactivated(before.comments, SetOf(ids))
      && after.reactions == WithoutTarget(WithoutTarget(before.reactions, CommentTarget, SetOf(ids)), PostTarget, {post});
    RemovedReactions(before, after, post, names, ids);
    RemovedAttachments(before, after, post);
    assert CommentsSound(after);
  }

  lemma {:induction false} RemovedReactions(before: Rows, after: Rows, post: int, names: seq<string>, ids: seq<int>)
    requires Sound(before) && Removed(before, after, post)
    requires after.outbox == before.outbox + [PostChanged(post, before.posts[post].board, names, true, ids)]
    requires ListsActive(before.comments, post, ids) && after.comments == Deactivated(before.comments, SetOf(ids))
    requires after.reactions == WithoutTarget(WithoutTarget(before.reactions, CommentTarget, SetOf(ids)), PostTarget, {post})
    ensures ReactionsSound(after)
  {
    ReplayOne(before.outbox, PostChanged(post, before.posts[post].board, names, true, ids));
  }

  /** A deleted post has no tags left and takes none from other posts. */
  lemma {:induction false} RemovedTags(before: Rows, after: Rows, post: int, other: int)
    requires Removed(before, after, post)
    ensures ActiveTags(after, post) == {}
    ensures other != post ==> ActiveTags(after, other) == ActiveTags(before, other)
  {
    assert forall t :: Tagged(after, other, t) <==> Tagged(before, other, t) && other != post;
  }

  /** A reaction on the post or on one of its comments. */
  predicate HangsOn(rows: Rows, k: ReactionKey, post: int) {
    match k.target
    case PostTarget => k.id == post
    case CommentTarget => k.id in rows.comments && rows.comments[k.id].post == post
  }

  lemma ActiveAreListed(comments: map<int, Comment>, post: int, ids: seq<int>)
    requires ListsActive(comments, post, ids)
    ensures forall c :: c in SetOf(ids) <==> c in comments && comments[c].post == post && comments[c].active
  {
    forall c ensures c in SetOf(ids) <==> c in comments && comments[c].post == post && comments[c].active {
      assert c in ids <==> ActiveOn(comments, post, c);
    }
  }

  /** What a delete takes and what it leaves, field by field: the post's comments are inactive and no other comment changed,
      the reactions on the post and on its comments are gone and no other, and the event lists the comments that were active. */
  lemma {:induction false} RemovedMeans(before: Rows, after: Rows, post: int)
    requires Sound(before) && Removed(before, after, post)
    ensures forall c :: c in after.comments <==> c in before.comments
    ensures forall c :: c in before.comments ==>
      after.comments[c] == before.comments[c].(active := before.comments[c].active && before.comments[c].post != post)
    ensures forall k :: k in after.reactions <==> (k in before.reactions && !HangsOn(before, k, post))
    ensures forall k :: k in after.reactions ==> after.reactions[k] == before.reactions[k]
    ensures |after.outbox| == |before.outbox| + 1 && after.outbox[|before.outbox|].PostChanged?
    ensures forall c :: c in after.outbox[|before.outbox|].comments <==>
      c in before.comments && before.comments[c].post == post && before.comments[c].active
  {
    var names: seq<string>, ids: seq<int> :|
      && after.outbox == before.outbox + [PostChanged(post, before.posts[post].board, names, true, ids)]
      && ListsActive(before.comments, post, ids)
      && after.comments == Deactivated(before.comments, SetOf(ids))
      && after.reactions == WithoutTarget(WithoutTarget(before.reactions, CommentTarget, SetOf(ids)), PostTarget, {post});
    ActiveAreListed(before.comments, post, ids);
    var e := after.outbox[|before.outbox|];
    forall c ensures c in e.comments <==> c in before.comments && before.comments[c].post == post && before.comments[c].active {
      assert c in ids <==> c in SetOf(ids);
    }
  }

  lemma RemovedAttachments(before: Rows, after: Rows, post: int)
    requires Sound(before) && Removed(before, after, post)
    ensures AttachmentsSound(after)
  {
    SyncKeepsRows(before.attachments, after.attachments, post, {});
    forall p, r | p in after.posts && after.posts[p].status != Deleted && r in Refs(after.posts[p].content)
      ensures Backed(after.attachments, p, r)
    {
      SyncSpares(before.attachments, after.attachments, post, {}, p, r);
    }
  }

  method CreatePost(db: Database, title: string, content: string, tags: seq<string>, author: int, board: int, draft: bool) returns (r: Result<int>)
    requires Sound(db.rows)
    modifies db`rows
    ensures Sound(db.rows)
    ensures r.Err? ==> db.rows == old(db.rows)
    ensures r.Ok? ==> !IsBlank(title) && !IsBlank(content) && Normalizes(tags) && Refs(content) == {}
    ensures db.reliable && !IsBlank(title) && !IsBlank(content) && Normalizes(tags) && Refs(content) == {} ==> r.Ok?
    ensures r.Ok? ==> Created(old(db.rows), db.rows, r.value, Post(author, board, title, content, if draft then Draft else Published), tags)
  {
    if IsBlank(title) || IsBlank(content) { return Err(InvalidInput); }
    var names := NormalizeTags(tags);
    if names.Err? { return Err(names.error); }
    var refs := ExtractAttachmentRefs(content);
    if |refs| > 0 {
      assert refs[0] in Refs(content);
      return Err(InvalidInput);
    }
    assert Refs(content) == {} by {
      forall x ensures x !in Refs(content) { assert x !in refs; }
    }
    var saved := db.rows;
    r := CreatePostTx(db, Post(author, board, title, content, if draft then Draft else Published), tags, names.value);
    if r.Err? { db.rows := saved; }
  }

  method CreatePostTx(db: Database, row: Post, ghost tags: seq<string>, names: seq<string>) returns (r: Result<int>)
    requires Sound(db.rows) && (row.status == Draft || row.status == Published) && Refs(row.content) == {}
    requires forall n :: n in names ==> n != ""
    requires forall n :: n in names <==> HasForm(tags, n)
    modifies db`rows
    ensures db.reliable ==> r.Ok?
    ensures r.Ok? ==> Sound(db.rows) && Created(old(db.rows), db.rows, r.value, row, tags)
  {
    var refused := db.CheckRequester();
    if refused.Some? { return Err(refused.value); }
    r := db.SavePost(row);
    if r.Err? { return; }
    ghost var inserted := db.rows;
    NewPostHasNoTags(old(db.rows), inserted, r.value, row);
    var tagged := UpsertPostTags(db, r.value, names);
    if tagged.Err? { return Err(tagged.error); }
    TagsStaySound(r.value, inserted, db.rows);
    CreatedTags(old(db.rows), inserted, db.rows, r.value, row, tags, names, tagged.value);
    if row.status == Published {
      var announced := db.Append(PostChanged(r.value, row.board, names, false, []));
      if !announced { return Err(RepositoryFailure); }
    }
    var failed := db.CallFails();
    if failed { return Err(RepositoryFailure); }
    assert row.status == Published ==> db.rows.outbox == old(db.rows).outbox + [PostChanged(r.value, row.board, names, false, [])];
    CreatedStaysSound(old(db.rows), db.rows, r.value, row, tags);
  }

  lemma NewPostHasNoTags(before: Rows, after: Rows, post: int, row: Post)
    requires TagsSound(before) && post !in before.posts && after == before.(posts := before.posts[post := row])
    ensures TagsSound(after)
    ensures forall t :: !Tagged(after, post, t)
    ensures forall other :: ActiveTags(after, other) == ActiveTags(before, other)
  {
    forall other ensures ActiveTags(after, other) == ActiveTags(before, other) {
      assert forall t :: Tagged(after, other, t) <==> Tagged(before, other, t);
    }
  }

  lemma CreatedTags(before: Rows, inserted: Rows, after: Rows, post: int, row: Post, tags: seq<string>, names: seq<string>, ids: set<int>)
    requires TagsSound(inserted) && OnlyTagsOf(post, inserted, after) && Names(after.tags, ids, names)
    requires forall t :: Tagged(after, post, t) <==> t in ids || Tagged(inserted, post, t)
    requires forall t :: !Tagged(inserted, post, t)
    requires forall other :: ActiveTags(inserted, other) == ActiveTags(before, other)
    requires forall n :: n in names <==> HasForm(tags, n)
    ensures IsForms(ActiveTags(after, post), tags)
    ensures forall other :: other != post ==> ActiveTags(after, other) == ActiveTags(before, other)
  {
    ActiveAreNamed(after, post, ids, names);
    forall other | other != post ensures ActiveTags(after, other) == ActiveTags(before, other) {
      OthersKeepTags(post, inserted, after, other);
    }
  }

  method SelectEditable(db: Database, post: int) returns (r: Result<Post>)
    ensures db.reliable && Editable(db.rows, post) ==> r.Ok?
    ensures r.Ok? ==> Editable(db.rows, post) && r.value == db.rows.posts[post]
  {
    var failed := db.CallFails();
    if failed { return Err(RepositoryFailure); }
    if post in db.rows.posts && db.rows.posts[post].status != Deleted { return Ok(db.rows.posts[post]); }
    return Err(NotFound);
  }

  method PublishPost(db: Database, post: int) returns (r: Result<()>)
    requires Sound(db.rows)
    modifies db
    ensures Sound(db.rows)
    ensures r.Err? ==> db.rows == old(db.rows)
    ensures Gone(old(db.rows), post) ==> r.Err?
    ensures db.reliable && !Gone(old(db.rows), post) && MayEmbed(old(db.rows), post, old(db.rows).posts[post].content) ==> r.Ok?
    ensures r.Ok? ==> MayEmbed(old(db.rows), post, old(db.rows).posts[post].content)
    ensures r.Ok? ==> PublishedNow(old(db.rows), db.rows, post)
    ensures db.clock >= old(db.clock) && FreshMarks(old(db.rows).attachments, db.rows.attachments, old(db.clock), db.clock)
  {
    var saved := db.rows;
    r := PublishPostTx(db, post);
    if r.Err? { db.rows := saved; }
  }

  method PublishPostTx(db: Database, post: int) returns (r: Result<()>)
    requires Sound(db.rows)
    modifies db
    ensures db.reliable && Editable(old(db.rows), post) && AllUsable(old(db.rows), post, old(db.rows).posts[post].content) ==> r.Ok?
    ensures r.Ok? ==> Sound(db.rows) && PublishedNow(old(db.rows), db.rows, post)
    ensures db.clock >= old(db.clock) && (r.Ok? ==> FreshMarks(old(db.rows).attachments, db.rows.attachments, old(db.clock), db.clock))
  {
    var found := SelectEditable(db, post);
    if found.Err? { return Err(found.error); }
    var row := found.value;
    var refused := db.CheckRequester();
    if refused.Some? { return Err(refused.value); }
    refused := ValidateAttachmentRefs(db, post, row.content);
    if refused.Some? { return Err(refused.value); }
    var current := ActiveTagNames(db, post);
    if current.Err? { return Err(current.error); }
    var synced := SyncPostAttachmentOrphans(db, post, row.content);
    if !synced { return Err(RepositoryFailure); }
    var updated := db.UpdatePostRow(post, row.(status := Published));
    if !updated { return Err(RepositoryFailure); }
    var announced := db.Append(PostChanged(post, row.board, current.value, false, []));
    if !announced { return Err(RepositoryFailure); }
    var failed := db.CallFails();
    if failed { return Err(RepositoryFailure); }
    assert db.rows.outbox == old(db.rows).outbox + [PostChanged(post, old(db.rows).posts[post].board, current.value, false, [])];
    PublishedStaysSound(old(db.rows), db.rows, post);
    return Ok(());
  }

  method UpdatePost(db: Database, post: int, title: string, content: string, tags: seq<string>) returns (r: Result<()>)
    requires Sound(db.rows)
    modifies db
    ensures Sound(db.rows)
    ensures r.Err? ==> db.rows == old(db.rows)
    ensures r.Ok? ==> !IsBlank(title) && !IsBlank(content) && Normalizes(tags)
    ensures Gone(old(db.rows), post) ==> r.Err?
    ensures r.Ok? ==> MayEmbed(old(db.rows), post, content)
    ensures db.reliable && !IsBlank(title) && !IsBlank(content) && Normalizes(tags) ==>
      !Gone(old(db.rows), post) && MayEmbed(old(db.rows), post, content) ==> r.Ok?
    ensures r.Ok? ==> Edited(old(db.rows), db.rows, post, title, content, tags)
    ensures db.clock >= old(db.clock) && FreshMarks(old(db.rows).attachments, db.rows.attachments, old(db.clock), db.clock)
  {
    if IsBlank(title) || IsBlank(content) { return Err(InvalidInput); }
    var names := NormalizeTags(tags);
    if names.Err? { return Err(names.error); }
    var saved := db.rows;
    r := UpdatePostTx(db, post, title, content, tags, names.value);
    if r.Err? { db.rows := saved; }
  }

  method UpdatePostTx(db: Database, post: int, title: string, content: string, ghost tags: seq<string>, names: seq<string>) returns (r: Result<()>)
    requires Sound(db.rows)
    requires forall n :: n in names ==> n != ""
    requires forall n :: n in names <==> HasForm(tags, n)
    modifies db
    ensures db.reliable && Editable(old(db.rows), post) && AllUsable(old(db.rows), post, content) ==> r.Ok?
    ensures r.Ok? ==> Sound(db.rows) && Edited(old(db.rows), db.rows, post, title, content, tags)
    ensures db.clock >= old(db.clock) && (r.Ok? ==> FreshMarks(old(db.rows).attachments, db.rows.attachments, old(db.clock), db.clock))
  {
    var found := SelectEditable(db, post);
    if found.Err? { return Err(found.error); }
    var row := found.value;
    var refused := db.CheckRequester();
    if refused.Some? { return Err(refused.value); }
    refused := ValidateAttachmentRefs(db, post, content);
    if refused.Some? { return Err(refused.value); }
    var current := ActiveTagNames(db, post);
    if current.Err? { return Err(current.error); }
    var synced := SyncPostAttachmentOrphans(db, post, content);
    if !synced { return Err(RepositoryFailure); }
    var updated := db.UpdatePostRow(post, row.(title := title, content := content));
    if !updated { return Err(RepositoryFailure); }
    ghost var written := db.rows;
    SameTags(old(db.rows), written);
    var tagged := SyncPostTags(db, post, names);
    if !tagged { return Err(RepositoryFailure); }
    TagsStaySound(post, written, db.rows);
    EditedTags(old(db.rows), written, db.rows, post);
    var union := UnionTagNames(current.value, names);
    UnionIsOldAndNew(old(db.rows), db.rows, post, current.value, names, union);
    var announced := db.Append(PostChanged(post, row.board, union, false, []));
    if !announced { return Err(RepositoryFailure); }
    var failed := db.CallFails();
    if failed { return Err(RepositoryFailure); }
    assert db.rows.outbox == old(db.rows).outbox + [PostChanged(post, old(db.rows).posts[post].board, union, false, [])];
    EditedStaysSound(old(db.rows), db.rows, post, title, content, tags);
    return Ok(());
  }

  lemma SameTags(before: Rows, after: Rows)
    requires TagsSound(before) && after.tags == before.tags && after.relations == before.relations
    requires forall p :: p in before.posts ==> p in after.posts
    ensures TagsSound(after)
    ensures forall other :: ActiveTags(after, other) == ActiveTags(before, other)
  {
    forall other ensures ActiveTags(after, other) == ActiveTags(before, other) {
      assert forall t :: Tagged(after, other, t) <==> Tagged(before, other, t);
    }
  }

  lemma EditedTags(before: Rows, written: Rows, after: Rows, post: int)
    requires TagsSound(written) && OnlyTagsOf(post, written, after)
    requires forall other :: ActiveTags(written, other) == ActiveTags(before, other)
    ensures forall other :: other != post ==> ActiveTags(after, other) == ActiveTags(before, other)
  {
    forall other | other != post ensures ActiveTags(after, other) == ActiveTags(before, other) {
      OthersKeepTags(post, written, after, other);
    }
  }

  /** No active tag is blank, so the union loses nothing. */
  lemma UnionIsOldAndNew(before: Rows, after: Rows, post: int, current: seq<string>, names: seq<string>, union: seq<string>)
    requires TagsSound(before)
    requires forall n :: n in current <==> n in ActiveTags(before, post)
    requires ActiveTags(after, post) == set n | n in names
    requires forall n :: n in names ==> n != ""
    requires forall n :: n in union <==> n != "" && (n in current || n in names)
    ensures forall n :: n in union <==> n in ActiveTags(before, post) || n in ActiveTags(after, post)
  {
    assert "" !in ActiveTags(before, post);
  }

  method DeletePost(db: Database, post: int) returns (r: Result<()>)
    requires Sound(db.rows)
    modifies db
    ensures Sound(db.rows)
    ensures r.Err? ==> db.rows == old(db.rows)
    ensures Gone(old(db.rows), post) ==> r.Err?
    ensures db.reliable && !Gone(old(db.rows), post) ==> r.Ok?
    ensures r.Ok? ==> Removed(old(db.rows), db.rows, post)
    ensures db.clock >= old(db.clock) && FreshMarks(old(db.rows).attachments, db.rows.attachments, old(db.clock), db.clock)
  {
    var saved := db.rows;
    r := DeletePostTx(db, post);
    if r.Err? { db.rows := saved; }
  }

  method DeletePostTx(db: Database, post: int) returns (r: Result<()>)
    requires Sound(db.rows)
    modifies db
    ensures db.reliable && Editable(old(db.rows), post) ==> r.Ok?
    ensures r.Ok? ==> Sound(db.rows) && Removed(old(db.rows), db.rows, post)
    ensures db.clock >= old(db.clock) && (r.Ok? ==> FreshMarks(old(db.rows).attachments, db.rows.attachments, old(db.clock), db.clock))
  {
    var found := SelectEditable(db, post);
    if found.Err? { return Err(found.error); }
    var row := found.value;
    var refused := db.CheckRequester();
    if refused.Some? { return Err(refused.value); }
    var current := ActiveTagNames(db, post);
    if current.Err? { return Err(current.error); }
    var ids := DeletePostArtifacts(db, post);
    if ids.Err? { return Err(ids.error); }
    var deleted := db.UpdatePostRow(post, row.(status := Deleted));
    if !deleted { return Err(RepositoryFailure); }
    var untagged := SoftDeleteByPostID(db, post);
    if !untagged { return Err(RepositoryFailure); }
    var announced := db.Append(PostChanged(post, row.board, current.value, true, ids.value));
    if !announced { return Err(RepositoryFailure); }
    var failed := db.CallFails();
    if failed { return Err(RepositoryFailure); }
    assert db.rows.outbox == old(db.rows).outbox + [PostChanged(post, old(db.rows).posts[post].board, current.value, true, ids.value)];
    RemovedStaysSound(old(db.rows), db.rows, post);
    return Ok(());
  }

  method SoftDeleteByPostID(db: Database, post: int) returns (ok: bool)
    modifies db`rows
    ensures db.reliable ==> ok
    ensures ok ==> db.rows == old(db.rows).(relations := Untagged(old(db.rows).relations, post))
  {
    var failed := db.CallFails();
    if failed { return false; }
    db.rows := db.rows.(relations := Untagged(db.rows.relations, post));
    return true;
  }
}
