/** Any run of the forum's commands, with any arguments and any failures, and what a run never breaks. */
module ForumRun {
  import opened Text
  import opened Events
  import opened Embeds
  import opened ForumStore
  import AttachmentCoordinator
  import opened PostCommands
  import opened ReactionCommands
  import opened CommentCommands
  import opened AttachmentCommands

  /** Rows kept their storage keys and their pending marks. */
  ghost predicate SameFiles(before: map<int, Attachment>, after: map<int, Attachment>) {
    && (forall a :: a in after <==> a in before)
    && (forall a :: a in before ==> after[a].storageKey == before[a].storageKey && after[a].pendingDeleteAt == before[a].pendingDeleteAt)
  }

  lemma SyncedKeepsFiles(before: map<int, Attachment>, after: map<int, Attachment>, post: int, refs: set<string>)
    requires AttachmentCoordinator.Synced(before, after, post, refs)
    ensures SameFiles(before, after)
  {
    forall a | a in before ensures after[a].storageKey == before[a].storageKey && after[a].pendingDeleteAt == before[a].pendingDeleteAt {
      assert before[a].post == post ==> AttachmentCoordinator.RowSynced(before[a], after[a], refs);
    }
  }

  lemma FilesFollow(before: Rows, after: Rows, files: set<string>)
    requires FilesSound(before, files) && SameFiles(before.attachments, after.attachments)
    ensures FilesSound(after, files)
  {
  }

  lemma EditedKeepsFiles(before: Rows, after: Rows, post: int, title: string, content: string, tags: seq<string>)
    requires Edited(before, after, post, title, content, tags)
    ensures SameFiles(before.attachments, after.attachments)
  {
    SyncedKeepsFiles(before.attachments, after.attachments, post, Refs(content));
  }

  lemma PublishedKeepsFiles(before: Rows, after: Rows, post: int)
    requires PublishedNow(before, after, post)
    ensures SameFiles(before.attachments, after.attachments)
  {
    SyncedKeepsFiles(before.attachments, after.attachments, post, Refs(before.posts[post].content));
  }

  lemma RemovedKeepsFiles(before: Rows, after: Rows, post: int)
    requires Removed(before, after, post)
    ensures SameFiles(before.attachments, after.attachments)
  {
    SyncedKeepsFiles(before.attachments, after.attachments, post, {});
  }

  method WriteCommand(db: Database)
    requires Sound(db.rows)
    modifies db
    ensures Sound(db.rows) && SameFiles(old(db.rows).attachments, db.rows.attachments)
    ensures db.clock >= old(db.clock) && FreshMarks(old(db.rows).attachments, db.rows.attachments, old(db.clock), db.clock)
  {
    var post, author, board: int := *, *, *;
    var title, content: string := *, *;
    var tags: seq<string> := *;
    var create, draft: bool := *, *;
    ghost var before := db.rows;
    if create {
      var r := CreatePost(db, title, content, tags, author, board, draft);
      assert db.rows.attachments == before.attachments;
    } else {
      var r := UpdatePost(db, post, title, content, tags);
      if r.Ok? { EditedKeepsFiles(before, db.rows, post, title, content, tags); }
    }
  }

  method PublishOrDeleteCommand(db: Database)
    requires Sound(db.rows)
    modifies db
    ensures Sound(db.rows) && SameFiles(old(db.rows).attachments, db.rows.attachments)
    ensures db.clock >= old(db.clock) && FreshMarks(old(db.rows).attachments, db.rows.attachments, old(db.clock), db.clock)
  {
    var post: int := *;
    var publish: bool := *;
    ghost var before := db.rows;
    if publish {
      var r := PublishPost(db, post);
      if r.Ok? { PublishedKeepsFiles(before, db.rows, post); }
    } else {
      var r := DeletePost(db, post);
      if r.Ok? { RemovedKeepsFiles(before, db.rows, post); }
    }
  }

  /** Reactions and comments touch no attachment. */
  method SocialCommand(db: Database)
    requires Sound(db.rows)
    modifies db`rows
    ensures Sound(db.rows) && db.rows.attachments == old(db.rows).attachments
  {
    var choice, user, id, post: int := *, *, *, *;
    var onPost, like, reply: bool := *, *, *;
    var content: string := *;
    var target := if onPost then PostTarget else CommentTarget;
    if choice == 0 {
      var r := SetReaction(db, user, target, id, if like then Like else Dislike);
    } else if choice == 1 {
      var r := DeleteReaction(db, user, target, id);
    } else if choice == 2 {
      var r := CreateComment(db, content, user, post, if reply then Some(id) else None);
    } else {
      var r := DeleteComment(db, id);
    }
  }

  method DeleteFileCommand(service: AttachmentService)
    requires service.Valid()
    modifies service.db
    ensures service.Valid()
    ensures service.db.clock >= old(service.db.clock) && KeepsRows(old(service.db.rows).attachments, service.db.rows.attachments)
    ensures FreshMarks(old(service.db.rows).attachments, service.db.rows.attachments, old(service.db.clock), service.db.clock)
  {
    var post: int := *;
    var uuid: string := *;
    ghost var before := service.db.rows;
    var r := DeletePostAttachment(service.db, post, uuid);
    if r.Ok? {
      ghost var id :| Detached(before, service.db.rows, id, post, uuid);
      DetachedKeepsFiles(before, service.db.rows, id, post, uuid, service.storage.files);
    }
  }

  lemma DetachedKeepsFiles(before: Rows, after: Rows, id: int, post: int, uuid: string, files: set<string>)
    requires FilesSound(before, files) && Detached(before, after, id, post, uuid)
    ensures FilesSound(after, files)
  {
  }

  /** No row is gone, and none has another storage key. */
  ghost predicate KeepsRows(before: map<int, Attachment>, after: map<int, Attachment>) {
    forall a :: a in before ==> a in after && after[a].storageKey == before[a].storageKey
  }

  /** Files that rows of a table name are still stored. */
  ghost predicate KeepsFiles(rows: map<int, Attachment>, before: set<string>, after: set<string>) {
    forall a :: a in rows && rows[a].storageKey in before ==> rows[a].storageKey in after
  }

  lemma OtherFilesStay(rows: map<int, Attachment>, before: set<string>, after: set<string>, key: string)
    requires before - {key} <= after && forall a :: a in rows ==> rows[a].storageKey != key
    ensures KeepsFiles(rows, before, after)
  {
    forall a | a in rows && rows[a].storageKey in before ensures rows[a].storageKey in after {
      assert rows[a].storageKey in before - {key};
    }
  }

  method UploadCommand(service: AttachmentService)
    requires service.Valid()
    modifies service`seen, service.db, service.storage
    ensures service.Valid()
    ensures service.db.clock >= old(service.db.clock) && KeepsRows(old(service.db.rows).attachments, service.db.rows.attachments)
    ensures FreshMarks(old(service.db.rows).attachments, service.db.rows.attachments, old(service.db.clock), service.db.clock)
    ensures KeepsFiles(old(service.db.rows).attachments, old(service.storage.files), service.storage.files)
  {
    var post, size: int := *, *;
    var name, kind, key, uuid: string := *, *, *, *;
    var accepted: bool := *;
    ghost var before := service.db.rows;
    // Storage keys and ids are drawn at random: an unused one is a fresh one.
    if KeyUnused(service.db.rows, key) && UUIDUnused(service.db.rows, uuid) && !IsBlank(key) {
      var r := service.UploadPostAttachment(post, name, kind, size, accepted, key, uuid);
      if r.Ok? {
        ghost var id :| Attached(before, service.db.rows, id, post, uuid, key)
          && old(service.db.clock) <= service.db.rows.attachments[id].orphanedAt.value <= service.db.clock;
        AttachedIsFresh(before, service.db.rows, id, post, uuid, key, old(service.db.clock), service.db.clock);
      }
      OtherFilesStay(before.attachments, old(service.storage.files), service.storage.files, key);
    }
  }

  /** Any command but a cleanup: rows stay, their files stay, and new marks are times of the command. */
  method Command(service: AttachmentService)
    requires service.Valid()
    modifies service`seen, service.db, service.storage
    ensures service.Valid()
    ensures service.db.clock >= old(service.db.clock) && KeepsRows(old(service.db.rows).attachments, service.db.rows.attachments)
    ensures FreshMarks(old(service.db.rows).attachments, service.db.rows.attachments, old(service.db.clock), service.db.clock)
    ensures KeepsFiles(old(service.db.rows).attachments, old(service.storage.files), service.storage.files)
  {
    var choice: int := *;
    var db := service.db;
    ghost var before := db.rows;
    if choice == 0 {
      WriteCommand(db);
      FilesFollow(before, db.rows, service.storage.files);
    } else if choice == 1 {
      SocialCommand(db);
      FilesFollow(before, db.rows, service.storage.files);
    } else if choice == 2 {
      PublishOrDeleteCommand(db);
      FilesFollow(before, db.rows, service.storage.files);
    } else if choice == 3 {
      DeleteFileCommand(service);
    } else {
      UploadCommand(service);
    }
  }

  method Step(service: AttachmentService)
    requires service.Valid()
    modifies service`seen, service.db, service.storage
    ensures service.Valid()
  {
    var now, grace, limit: int := *, *, *;
    var command, cancellable: bool := *, *;
    if command {
      Command(service);
    } else {
      var deleted, failure := service.CleanupAttachments(now, grace, limit, cancellable);
    }
  }

  /** From empty tables, no run of any length leaves the log and the reaction table apart, a reaction or an active
      comment on something gone, a reply to a reply, two rows of one tag, an embed without its row, or a row without its file. */
  method AnyRun(steps: nat, reliable: bool, maxUploadSizeBytes: int) returns (service: AttachmentService)
    ensures fresh(service) && service.Valid()
  {
    var start: int := *;
    var db := new Database(start, reliable);
    var storage := new FileStorage(reliable);
    service := new AttachmentService(db, storage, maxUploadSizeBytes);
    NoRowsAreSound();
    for i := 0 to steps
      invariant fresh(service) && fresh(service.db) && fresh(service.storage)
      invariant service.Valid()
    {
      Step(service);
    }
  }

  /** Rows that carry no mark from before a moment, and have their files. */
  ghost predicate Protected(rows: map<int, Attachment>, files: set<string>, ids: set<int>, since: int) {
    forall a :: a in ids ==> UnmarkedBefore(rows, a, since) && rows[a].storageKey in files
  }

  lemma CommandProtects(before: Rows, after: Rows, files: set<string>, left: set<string>, ids: set<int>, since: int, from: int, to: int)
    requires Protected(before.attachments, files, ids, since) && since <= from
    requires KeepsRows(before.attachments, after.attachments) && FreshMarks(before.attachments, after.attachments, from, to)
    requires KeepsFiles(before.attachments, files, left)
    ensures Protected(after.attachments, left, ids, since)
  {
    forall a | a in ids ensures UnmarkedBefore(after.attachments, a, since) && after.attachments[a].storageKey in left {
      assert UnmarkedBefore(before.attachments, a, since);
      assert a in after.attachments;
    }
  }

  lemma CleanupProtects(before: Rows, after: Rows, files: set<string>, left: set<string>, ids: set<int>, since: int, cutoff: int, deleted: nat)
    requires Protected(before.attachments, files, ids, since) && FilesSound(before, files) && cutoff < since
    requires PassLeaves(before.attachments, after.attachments, cutoff, deleted) && SparesFiles(before.attachments, files, left, cutoff)
    ensures Protected(after.attachments, left, ids, since)
  {
    forall a | a in ids ensures UnmarkedBefore(after.attachments, a, since) && after.attachments[a].storageKey in left {
      GraceProtects(before, after, files, left, a, since, cutoff, deleted);
    }
  }

  /** The grace period, over any run: rows that are live or freshly marked at a moment, with their files, outlast every run of
      commands and cleanups in which each cleanup's cutoff lies before that moment. */
  method GraceRun(service: AttachmentService, ghost ids: set<int>, since: int, steps: nat)
    requires service.Valid() && since <= service.db.clock
    requires Protected(service.db.rows.attachments, service.storage.files, ids, since)
    modifies service`seen, service.db, service.storage
    ensures service.Valid() && Protected(service.db.rows.attachments, service.storage.files, ids, since)
  {
    for i := 0 to steps
      invariant service.Valid() && since <= service.db.clock
      invariant Protected(service.db.rows.attachments, service.storage.files, ids, since)
    {
      ProtectedStep(service, ids, since);
    }
  }

  method ProtectedStep(service: AttachmentService, ghost ids: set<int>, since: int)
    requires service.Valid() && since <= service.db.clock
    requires Protected(service.db.rows.attachments, service.storage.files, ids, since)
    modifies service`seen, service.db, service.storage
    ensures service.Valid() && since <= service.db.clock
    ensures Protected(service.db.rows.attachments, service.storage.files, ids, since)
  {
    var command: bool := *;
    if command { ProtectedCommand(service, ids, since); } else { ProtectedCleanup(service, ids, since); }
  }

  method ProtectedCommand(service: AttachmentService, ghost ids: set<int>, since: int)
    requires service.Valid() && since <= service.db.clock
    requires Protected(service.db.rows.attachments, service.storage.files, ids, since)
    modifies service`seen, service.db, service.storage
    ensures service.Valid() && since <= service.db.clock
    ensures Protected(service.db.rows.attachments, service.storage.files, ids, since)
  {
    ghost var before, files, from := service.db.rows, service.storage.files, service.db.clock;
    Command(service);
    CommandProtects(before, service.db.rows, files, service.storage.files, ids, since, from, service.db.clock);
  }

  /** A pass, told by what it leaves. */
  method CleanupCommand(service: AttachmentService, now: int, grace: int, limit: int, cancellable: bool) returns (deleted: nat)
    requires service.Valid()
    modifies service`seen, service.db, service.storage
    ensures service.Valid() && service.db.clock == old(service.db.clock)
    ensures PassLeaves(old(service.db.rows).attachments, service.db.rows.attachments, now - grace, deleted)
    ensures SparesFiles(old(service.db.rows).attachments, old(service.storage.files), service.storage.files, now - grace)
  {
    hide *;
    var failure;
    deleted, failure := service.CleanupAttachments(now, grace, limit, cancellable);
  }

  method ProtectedCleanup(service: AttachmentService, ghost ids: set<int>, since: int)
    requires service.Valid() && since <= service.db.clock
    requires Protected(service.db.rows.attachments, service.storage.files, ids, since)
    modifies service`seen, service.db, service.storage
    ensures service.Valid() && since <= service.db.clock
    ensures Protected(service.db.rows.attachments, service.storage.files, ids, since)
  {
    hide Sound, FilesSound, PassLeaves, SparesFiles, Protected;
    var now, grace, limit: int := *, *, *;
    var cancellable: bool := *;
    if now - grace < since {
      ghost var before, files := service.db.rows, service.storage.files;
      var deleted := CleanupCommand(service, now, grace, limit, cancellable);
      CleanupProtects(before, service.db.rows, files, service.storage.files, ids, since, now - grace, deleted);
    }
  }

  /** A file row by a storage key of the caller's choice, whether or not such a file is stored or the key is new. */
  method AttachCommand(db: Database)
    requires Sound(db.rows)
    modifies db
    ensures Sound(db.rows)
  {
    var post, size: int := *, *;
    var name, kind, key, uuid: string := *, *, *, *;
    // The id is drawn at random: an unused one is a fresh one.
    if UUIDUnused(db.rows, uuid) { var r := CreatePostAttachment(db, post, name, kind, size, key, uuid); }
  }

  /** What a cleanup does to the table: a candidate's row is marked or removed. */
  method SweepCommand(db: Database)
    requires Sound(db.rows)
    modifies db
    ensures Sound(db.rows)
  {
    var id, cutoff: int := *, *;
    var mark: bool := *;
    if id in db.rows.attachments && Eligible(db.rows.attachments[id], cutoff) {
      ghost var before := db.rows;
      DeadIsUnembedded(before, id);
      if mark {
        var ok := db.UpdateAttachment(id, db.rows.attachments[id].MarkPendingDeleteAt(cutoff));
      } else {
        db.rows := db.rows.(attachments := db.rows.attachments - {id});
      }
      RewriteStaysSound(before, db.rows, id);
    }
  }

  method TableStep(db: Database)
    requires Sound(db.rows)
    modifies db
    ensures Sound(db.rows)
  {
    var choice, post: int := *, *;
    var uuid: string := *;
    if choice == 0 {
      WriteCommand(db);
    } else if choice == 1 {
      PublishOrDeleteCommand(db);
    } else if choice == 2 {
      SocialCommand(db);
    } else if choice == 3 {
      AttachCommand(db);
    } else if choice == 4 {
      var r := DeletePostAttachment(db, post, uuid);
    } else {
      SweepCommand(db);
    }
  }

  /** The tables alone: with rows registered under any storage key too, all their promises hold after any run. */
  method AnyTableRun(steps: nat, reliable: bool) returns (db: Database)
    ensures fresh(db) && Sound(db.rows)
  {
    var start: int := *;
    db := new Database(start, reliable);
    NoRowsAreSound();
    for i := 0 to steps
      invariant fresh(db) && Sound(db.rows)
    {
      TableStep(db);
    }
  }
}
