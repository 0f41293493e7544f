/** Uploading, deleting and cleaning up attachments: rows in the database, files in a storage that joins no transaction. */
module AttachmentCommands {
  import opened Text
  import opened Lists
  import opened Events
  import opened Embeds
  import opened ForumStore
  import AttachmentCoordinator
  import opened PostCommands

  /** A row that is not about to be deleted has its file. */
  ghost predicate FilesPresent(rows: Rows, files: set<string>) {
    forall a :: a in rows.attachments && !rows.attachments[a].IsPendingDelete() ==> rows.attachments[a].storageKey in files
  }

  ghost predicate KeysUnique(rows: Rows) {
    forall a, b :: a in rows.attachments && b in rows.attachments && rows.attachments[a].storageKey == rows.attachments[b].storageKey ==> a == b
  }

  ghost predicate FilesSound(rows: Rows, files: set<string>) { KeysUnique(rows) && FilesPresent(rows, files) }

  predicate KeyUnused(rows: Rows, key: string) { forall a :: a in rows.attachments ==> rows.attachments[a].storageKey != key }

  predicate UUIDUnused(rows: Rows, uuid: string) { forall a :: a in rows.attachments ==> rows.attachments[a].uuid != uuid }

  datatype State = State(rows: Rows, files: set<string>)

  /** Every state since then, one after each call that may have changed something, had the file of every kept row. */
  ghost predicate FilesAllAlong(before: seq<State>, now: seq<State>) {
    before <= now && forall i :: |before| <= i < |now| ==> FilesSound(now[i].rows, now[i].files)
  }

  ghost predicate Attached(before: Rows, after: Rows, id: int, post: int, uuid: string, key: string) {
    && Editable(before, post) && id !in before.attachments && id in after.attachments
    && after == before.(attachments := before.attachments[id := after.attachments[id]], outbox := before.outbox + [AttachmentChanged(post)])
    && after.attachments[id] == Attachment(uuid, post, key, after.attachments[id].orphanedAt, None)
    && after.attachments[id].IsOrphaned()
  }

  ghost predicate Detached(before: Rows, after: Rows, id: int, post: int, uuid: string) {
    && Editable(before, post) && id in before.attachments && id in after.attachments
    && before.attachments[id].post == post && before.attachments[id].uuid == uuid
    && uuid !in Refs(before.posts[post].content)
    && after == before.(attachments := before.attachments[id := after.attachments[id]], outbox := before.outbox + [AttachmentChanged(post)])
    && after.attachments[id].IsPendingDelete()
    && after.attachments[id] == before.attachments[id].(pendingDeleteAt := after.attachments[id].pendingDeleteAt)
    && (before.attachments[id].IsPendingDelete() ==> after.attachments[id] == before.attachments[id])
  }

  lemma {:induction false} AttachedStaysSound(before: Rows, after: Rows, id: int, post: int, uuid: string, key: string)
    requires Sound(before) && Attached(before, after, id, post, uuid, key) && UUIDUnused(before, uuid)
    ensures Sound(after)
  {
    QuietEvent(before, after, AttachmentChanged(post));
    forall p, r | p in after.posts && after.posts[p].status != Deleted && r in Refs(after.posts[p].content)
      ensures Backed(after.attachments, p, r)
    {
      var a :| a in before.attachments && before.attachments[a].uuid == r && before.attachments[a].post == p && IsLive(before.attachments[a]);
      assert after.attachments[a] == before.attachments[a];
    }
  }

  /** A row that no reachable post embeds may be given any state, or be dropped, without touching what posts embed. */
  predicate Unembedded(rows: Rows, a: Attachment) {
    Editable(rows, a.post) ==> a.uuid !in Refs(rows.posts[a.post].content)
  }

  lemma {:induction false} RewriteStaysSound(before: Rows, after: Rows, id: int)
    requires AttachmentsSound(before) && id in before.attachments && Unembedded(before, before.attachments[id])
    requires after.posts == before.posts
    requires forall a :: a in after.attachments ==> a in before.attachments
    requires forall a :: a in before.attachments && a != id ==> a in after.attachments && after.attachments[a] == before.attachments[a]
    requires id in after.attachments ==> after.attachments[id].uuid == before.attachments[id].uuid && after.attachments[id].post == before.attachments[id].post
    ensures AttachmentsSound(after)
  {
    forall p, r | p in after.posts && after.posts[p].status != Deleted && r in Refs(after.posts[p].content)
      ensures Backed(after.attachments, p, r)
    {
      var a :| a in before.attachments && before.attachments[a].uuid == r && before.attachments[a].post == p && IsLive(before.attachments[a]);
      assert a != id;
      assert after.attachments[a] == before.attachments[a];
    }
  }

  lemma {:induction false} DetachedStaysSound(before: Rows, after: Rows, id: int, post: int, uuid: string)
    requires Sound(before) && Detached(before, after, id, post, uuid)
    ensures Sound(after)
  {
    QuietEvent(before, after, AttachmentChanged(post));
    RewriteStaysSound(before, after, id);
  }

  /** What is orphaned or pending is embedded nowhere. */
  lemma {:induction false} DeadIsUnembedded(rows: Rows, id: int)
    requires AttachmentsSound(rows) && id in rows.attachments && !IsLive(rows.attachments[id])
    ensures Unembedded(rows, rows.attachments[id])
  {
    assert !Backed(rows.attachments, rows.attachments[id].post, rows.attachments[id].uuid);
  }

  /** Registering a row by a key of the caller's choice keeps files and rows in step exactly when the file is there and the key is new. */
  lemma DirectCreateIff(before: Rows, after: Rows, id: int, post: int, uuid: string, key: string, files: set<string>)
    requires FilesSound(before, files) && Attached(before, after, id, post, uuid, key)
    ensures FilesSound(after, files) <==> key in files && KeyUnused(before, key)
  {
    assert after.attachments[id].storageKey == key;
    assert forall a :: a in before.attachments ==> a != id && after.attachments[a] == before.attachments[a];
    if FilesSound(after, files) {
      forall a | a in before.attachments ensures before.attachments[a].storageKey != key {
        assert after.attachments[a].storageKey == key ==> a == id;
      }
    }
  }

  /** The row as the cleanup writes it back from the copy it selected earlier. */
  function MarkedFromCopy(rows: Rows, id: int, copy: Attachment, cutoff: int): Rows
    requires id in rows.attachments
  {
    rows.(attachments := rows.attachments[id := copy.MarkPendingDeleteAt(cutoff)])
  }

  /** With edits between selection and marking, a mark is safe exactly when the post does not embed the file by then. */
  lemma {:induction false} StaleMarkIff(rows: Rows, id: int, copy: Attachment, cutoff: int)
    requires AttachmentsSound(rows) && id in rows.attachments
    requires copy.uuid == rows.attachments[id].uuid && copy.post == rows.attachments[id].post
    ensures EmbedsBacked(MarkedFromCopy(rows, id, copy, cutoff)) <==> Unembedded(rows, rows.attachments[id])
  {
    var row, after := rows.attachments[id], MarkedFromCopy(rows, id, copy, cutoff);
    if Unembedded(rows, row) {
      RewriteStaysSound(rows, after, id);
    } else {
      assert forall a :: a in after.attachments ==> after.attachments[a].uuid == rows.attachments[a].uuid;
      assert !Backed(after.attachments, row.post, row.uuid);
    }
  }

  /** Such a state is reached: a candidate is selected, then an edit embeds its file, and then the mark is written from
      the copy.  The edit itself is sound; the mark takes the file's row away from under the text. */
  lemma {:induction false} StaleMarkAfterEdit(before: Rows, after: Rows, id: int, post: int, title: string, content: string, tags: seq<string>, cutoff: int)
    requires Sound(before) && id in before.attachments && Eligible(before.attachments[id], cutoff) && !before.attachments[id].IsPendingDelete()
    requires Edited(before, after, post, title, content, tags) && before.attachments[id].uuid in Refs(content)
    requires TagsSound(after)
    ensures Sound(after) && id in after.attachments && IsLive(after.attachments[id])
    ensures !EmbedsBacked(MarkedFromCopy(after, id, before.attachments[id], cutoff))
  {
    EditedStaysSound(before, after, post, title, content, tags);
    var row := before.attachments[id];
    assert AttachmentCoordinator.Usable(before.attachments, post, row.uuid);
    AttachmentCoordinator.OnlyRow(before.attachments, id, post, row.uuid);
    AttachmentCoordinator.SyncKeepsRows(before.attachments, after.attachments, post, Refs(content));
    assert AttachmentCoordinator.RowSynced(row, after.attachments[id], Refs(content));
    StaleMarkIff(after, id, row, cutoff);
  }

  class FileStorage {
    var files: set<string>
    const reliable: bool

    constructor (reliable: bool)
      ensures files == {} && this.reliable == reliable
    {
      files, this.reliable := {}, reliable;
    }

    method Save(key: string) returns (ok: bool)
      modifies this
      ensures reliable ==> ok
      ensures files == if ok then old(files) + {key} else old(files)
    {
      var failed: bool := *;
      if failed && !reliable { return false; }
      files := files + {key};
      return true;
    }

    /** Removing a file that is not there succeeds. */
    method Delete(key: string) returns (ok: bool)
      modifies this
      ensures reliable ==> ok
      ensures files == if ok then old(files) - {key} else old(files)
    {
      var failed: bool := *;
      if failed && !reliable { return false; }
      files := files - {key};
      return true;
    }
  }

  method CreatePostAttachment(db: Database, post: int, fileName: string, contentType: string, sizeBytes: int, storageKey: string, uuid: string)
    returns (r: Result<int>)
    requires Sound(db.rows) && UUIDUnused(db.rows, uuid)
    modifies db
    ensures Sound(db.rows)
    ensures r.Err? ==> db.rows == old(db.rows)
    ensures db.reliable && !IsBlank(fileName) && !IsBlank(contentType) && !IsBlank(storageKey) && sizeBytes > 0 && !Gone(old(db.rows), post) ==> r.Ok?
    ensures Gone(old(db.rows), post) ==> r.Err?
    ensures r.Ok? ==> !IsBlank(fileName) && !IsBlank(contentType) && !IsBlank(storageKey) && sizeBytes > 0
    ensures r.Ok? ==> Attached(old(db.rows), db.rows, r.value, post, uuid, storageKey)
    ensures r.Ok? ==> old(db.clock) <= db.rows.attachments[r.value].orphanedAt.value <= db.clock
    ensures db.clock >= old(db.clock)
  {
    if IsBlank(fileName) || IsBlank(contentType) || IsBlank(storageKey) || sizeBytes <= 0 { return Err(InvalidInput); }
    var found := SelectEditable(db, post);
    if found.Err? { return Err(found.error); }
    var saved := db.rows;
    var now := db.Now();
    r := SaveAttachmentTx(db, post, Attachment(uuid, post, storageKey, Some(now), None));
    if r.Err? { db.rows := saved; } else { AttachedStaysSound(saved, db.rows, r.value, post, uuid, storageKey); }
  }

  method SaveAttachmentTx(db: Database, post: int, row: Attachment) returns (r: Result<int>)
    requires row.post == post && row.IsOrphaned() && row.pendingDeleteAt == None
    modifies db`rows
    ensures db.reliable && Editable(old(db.rows), post) ==> r.Ok?
    ensures r.Ok? ==> Attached(old(db.rows), db.rows, r.value, post, row.uuid, row.storageKey) && db.rows.attachments[r.value] == row
  {
    var found := SelectEditable(db, post);
    if found.Err? { return Err(found.error); }
    var refused := db.CheckRequester();
    if refused.Some? { return Err(refused.value); }
    var failed := db.CallFails();
    if failed { return Err(RepositoryFailure); }
    var id := db.FreshID(db.rows.attachments.Keys);
    db.rows := db.rows.(attachments := db.rows.attachments[id := row]);
    var announced := db.Append(AttachmentChanged(post));
    if !announced { return Err(RepositoryFailure); }
    failed := db.CallFails();
    if failed { return Err(RepositoryFailure); }
    return Ok(id);
  }

  /** The post has such a file and its text does not embed it. */
  ghost predicate Deletable(rows: Rows, post: int, uuid: string) {
    && Editable(rows, post) && uuid !in Refs(rows.posts[post].content)
    && exists a :: a in rows.attachments && rows.attachments[a].uuid == uuid && rows.attachments[a].post == post
  }

  /** Refuses a file that the post's text still embeds; otherwise the row waits for the cleanup. */
  method DeletePostAttachment(db: Database, post: int, uuid: string) returns (r: Result<()>)
    requires Sound(db.rows)
    modifies db
    ensures Sound(db.rows)
    ensures r.Err? ==> db.rows == old(db.rows)
    ensures r.Ok? ==> exists id :: Detached(old(db.rows), db.rows, id, post, uuid)
    ensures db.clock >= old(db.clock) && FreshMarks(old(db.rows).attachments, db.rows.attachments, old(db.clock), db.clock)
    ensures Gone(old(db.rows), post) || uuid in Refs(old(db.rows).posts[post].content) ==> r.Err?
    ensures db.reliable && !Gone(old(db.rows), post) && uuid !in Refs(old(db.rows).posts[post].content) ==>
      (exists a :: a in old(db.rows).attachments && old(db.rows).attachments[a].uuid == uuid && old(db.rows).attachments[a].post == post) ==> r.Ok?
  {
    var saved := db.rows;
    var id;
    r, id := DeleteAttachmentTx(db, post, uuid);
    if r.Err? { db.rows := saved; } else { DetachedStaysSound(saved, db.rows, id, post, uuid); }
  }

  lemma OnlyRowDeletable(rows: Rows, id: int, post: int, uuid: string)
    requires UniqueUUIDs(rows.attachments) && id in rows.attachments && rows.attachments[id].uuid == uuid
    ensures Deletable(rows, post, uuid) ==> rows.attachments[id].post == post
  {
  }

  method DeleteAttachmentTx(db: Database, post: int, uuid: string) returns (r: Result<()>, id: int)
    requires UniqueUUIDs(db.rows.attachments)
    modifies db
    ensures db.reliable && Deletable(old(db.rows), post, uuid) ==> r.Ok?
    ensures r.Ok? ==> Detached(old(db.rows), db.rows, id, post, uuid)
    ensures db.clock >= old(db.clock) && (r.Ok? ==> FreshMarks(old(db.rows).attachments, db.rows.attachments, old(db.clock), db.clock))
  {
    id := 0;
    var found := SelectEditable(db, post);
    if found.Err? { return Err(found.error), id; }
    var refused := db.CheckRequester();
    if refused.Some? { return Err(refused.value), id; }
    var chosen := AttachmentCoordinator.SelectByUUID(db, uuid);
    if chosen.Err? { return Err(chosen.error), id; }
    if chosen.value.None? { return Err(NotFound), id; }
    id := chosen.value.value;
    OnlyRowDeletable(db.rows, id, post, uuid);
    if db.rows.attachments[id].post != post { return Err(NotFound), id; }
    var refs := ExtractAttachmentRefs(found.value.content);
    for i := 0 to |refs|
      invariant forall k :: 0 <= k < i ==> refs[k] != uuid
    {
      assert refs[i] in Refs(found.value.content);
      if refs[i] == uuid { return Err(InvalidInput), id; }
    }
    var now := db.Now();
    var updated := db.UpdateAttachment(id, db.rows.attachments[id].MarkPendingDeleteAt(now));
    if !updated { return Err(RepositoryFailure), id; }
    var announced := db.Append(AttachmentChanged(post));
    if !announced { return Err(RepositoryFailure), id; }
    var failed := db.CallFails();
    if failed { return Err(RepositoryFailure), id; }
    return Ok(()), id;
  }

  function EligibleAt(a: Attachment): Option<int> { if a.pendingDeleteAt.Some? then a.pendingDeleteAt else a.orphanedAt }

  predicate Eligible(a: Attachment, cutoff: int) { EligibleAt(a).Some? && EligibleAt(a).value <= cutoff }

  /** Oldest first, then by id. */
  predicate Sooner(attachments: map<int, Attachment>, a: int, b: int) {
    && a in attachments && b in attachments
    && var s, t := EligibleAt(attachments[a]), EligibleAt(attachments[b]);
       s.Some? && t.Some? && (s.value < t.value || (s.value == t.value && a < b))
  }

  /** What goes sooner is a candidate whenever what goes later is. */
  lemma SoonerIsOlder(attachments: map<int, Attachment>, a: int, b: int, cutoff: int)
    requires Sooner(attachments, a, b) && Eligible(attachments[b], cutoff)
    ensures Eligible(attachments[a], cutoff)
  {
  }

  /** The oldest rows whose grace has run out, at most `limit` of them; every one left out is younger than every one chosen. */
  method SelectCleanupCandidates(db: Database, cutoff: int, limit: int) returns (r: Result<seq<int>>)
    requires limit > 0
    ensures db.reliable ==> r.Ok?
    ensures r.Ok? ==> NoDuplicates(r.value) && |r.value| <= limit
    ensures r.Ok? ==> forall i, j :: 0 <= i < j < |r.value| ==> Sooner(db.rows.attachments, r.value[i], r.value[j])
    ensures r.Ok? ==> forall a :: a in r.value ==> a in db.rows.attachments && Eligible(db.rows.attachments[a], cutoff)
    ensures r.Ok? ==> forall a :: a in db.rows.attachments && Eligible(db.rows.attachments[a], cutoff) && a !in r.value ==>
      |r.value| == limit && forall b :: b in r.value ==> Sooner(db.rows.attachments, b, a)
  {
    var failed := db.CallFails();
    if failed { return Err(RepositoryFailure); }
    var rows := db.rows.attachments;
    var left := set a | a in rows && Eligible(rows[a], cutoff);
    var chosen: seq<int> := [];
    while |chosen| < limit && left != {}
      invariant |chosen| <= limit && NoDuplicates(chosen)
      invariant forall a :: a in rows && Eligible(rows[a], cutoff) <==> a in left || a in chosen
      invariant forall a, b :: a in left && b in chosen ==> Sooner(rows, b, a)
      invariant forall i, j :: 0 <= i < j < |chosen| ==> Sooner(rows, chosen[i], chosen[j])
      decreases |left|
    {
      var first := Soonest(rows, left, cutoff);
      assert first !in chosen;
      forall i | 0 <= i < |chosen| ensures Sooner(rows, chosen[i], first) { assert chosen[i] in chosen; }
      left := left - {first};
      chosen := chosen + [first];
    }
    return Ok(chosen);
  }

  method Soonest(rows: map<int, Attachment>, ids: set<int>, cutoff: int) returns (first: int)
    requires ids != {} && forall a :: a in ids ==> a in rows && Eligible(rows[a], cutoff)
    ensures first in ids && forall a :: a in ids && a != first ==> Sooner(rows, first, a)
  {
    var list := ListOf(ids);
    first := list[0];
    assert forall k :: 0 <= k < |list| ==> list[k] in ids;
    for k := 1 to |list|
      invariant first in list[..k]
      invariant forall j :: 0 <= j < k && list[j] != first ==> Sooner(rows, first, list[j])
    {
      if Sooner(rows, list[k], first) { first := list[k]; }
    }
  }

  class AttachmentService {
    const db: Database
    const storage: FileStorage
    const maxUploadSizeBytes: int
    /** The committed states so far. */
    ghost var seen: seq<State>

    ghost predicate Valid()
      reads this, db, storage
    {
      Sound(db.rows) && FilesSound(db.rows, storage.files)
    }

    constructor (db: Database, storage: FileStorage, maxUploadSizeBytes: int)
      ensures this.db == db && this.storage == storage && seen == []
      ensures this.maxUploadSizeBytes == if maxUploadSizeBytes <= 0 then 10_485_760 else maxUploadSizeBytes
    {
      this.db, this.storage, seen := db, storage, [];
      this.maxUploadSizeBytes := if maxUploadSizeBytes <= 0 then 10 * 0x100000 else maxUploadSizeBytes;
    }

    ghost method Record()
      modifies this`seen
      ensures seen == old(seen) + [State(db.rows, storage.files)]
    {
      seen := seen + [State(db.rows, storage.files)];
    }

    method StoreFile(key: string) returns (ok: bool)
      requires Valid()
      modifies this`seen, storage
      ensures Valid() && FilesAllAlong(old(seen), seen)
      ensures storage.files == if ok then old(storage.files) + {key} else old(storage.files)
      ensures storage.reliable ==> ok
    {
      ok := storage.Save(key);
      Record();
    }

    /** Removing a file is safe when no row but pending ones uses its key. */
    method RemoveFile(key: string) returns (ok: bool)
      requires Valid() && forall a :: a in db.rows.attachments && db.rows.attachments[a].storageKey == key ==> db.rows.attachments[a].IsPendingDelete()
      modifies this`seen, storage
      ensures Valid() && FilesAllAlong(old(seen), seen)
      ensures storage.files == if ok then old(storage.files) - {key} else old(storage.files)
      ensures storage.reliable ==> ok
    {
      ok := storage.Delete(key);
      Record();
    }

    method Register(post: int, fileName: string, contentType: string, size: int, key: string, uuid: string) returns (r: Result<int>)
      requires Valid() && KeyUnused(db.rows, key) && UUIDUnused(db.rows, uuid) && key in storage.files
      modifies this`seen, db
      ensures Valid() && FilesAllAlong(old(seen), seen)
      ensures r.Err? ==> db.rows == old(db.rows)
      ensures r.Ok? ==> Attached(old(db.rows), db.rows, r.value, post, uuid, key)
      ensures r.Ok? ==> old(db.clock) <= db.rows.attachments[r.value].orphanedAt.value <= db.clock
      ensures db.clock >= old(db.clock)
      ensures db.reliable && !IsBlank(fileName) && !IsBlank(contentType) && !IsBlank(key) && size > 0 && Editable(old(db.rows), post) ==> r.Ok?
    {
      r := CreatePostAttachment(db, post, fileName, contentType, size, key, uuid);
      if r.Ok? { DirectCreateIff(old(db.rows), db.rows, r.value, post, uuid, key, storage.files); }
      Record();
    }

    /** The file goes first and the row second; if there is no row, the file is taken back.  The key and the id are freshly drawn. */
    method UploadPostAttachment(post: int, fileName: string, contentType: string, size: int, typeAccepted: bool, key: string, uuid: string)
      returns (r: Result<string>)
      requires Valid() && KeyUnused(db.rows, key) && UUIDUnused(db.rows, uuid) && !IsBlank(key)
      modifies this`seen, db, storage
      ensures Valid() && FilesAllAlong(old(seen), seen)
      ensures r.Err? ==> db.rows == old(db.rows)
      ensures r.Err? ==> storage.files - {key} == old(storage.files) - {key}
      ensures r.Err? && storage.reliable ==> storage.files == old(storage.files) || storage.files == old(storage.files) - {key}
      ensures r.Ok? ==> storage.files == old(storage.files) + {key}
      ensures r.Ok? ==> exists id ::
        Attached(old(db.rows), db.rows, id, post, uuid, key) && old(db.clock) <= db.rows.attachments[id].orphanedAt.value <= db.clock
      ensures db.clock >= old(db.clock)
      ensures r.Ok? ==> r.value == Embed(fileName, uuid)
      ensures r.Ok? ==> !IsBlank(fileName) && !IsBlank(contentType) && 0 < size <= maxUploadSizeBytes && typeAccepted
      ensures db.reliable && storage.reliable && !IsBlank(fileName) && !IsBlank(contentType) && 0 < size <= maxUploadSizeBytes && typeAccepted ==>
        !Gone(old(db.rows), post) ==> r.Ok?
      ensures Gone(old(db.rows), post) ==> r.Err?
    {
      if IsBlank(fileName) || IsBlank(contentType) { return Err(InvalidInput); }
      var found := SelectEditable(db, post);
      if found.Err? { return Err(found.error); }
      var refused := db.CheckRequester();
      if refused.Some? { return Err(refused.value); }
      if size <= 0 || size > maxUploadSizeBytes || !typeAccepted { return Err(InvalidInput); }
      var stored := StoreFile(key);
      if !stored { return Err(StorageFailure); }
      var created := Register(post, fileName, contentType, size, key, uuid);
      if created.Err? {
        var removed := RemoveFile(key);
        return Err(created.error);
      }
      return Ok(Embed(fileName, uuid));
    }

    method MarkItem(id: int, item: Attachment) returns (ok: bool)
      requires Valid() && id in db.rows.attachments && Unembedded(db.rows, db.rows.attachments[id])
      requires item.IsPendingDelete() && item == db.rows.attachments[id].(pendingDeleteAt := item.pendingDeleteAt)
      modifies this`seen, db`rows
      ensures Valid() && FilesAllAlong(old(seen), seen)
      ensures db.rows == if ok then old(db.rows).(attachments := old(db.rows).attachments[id := item]) else old(db.rows)
      ensures db.reliable ==> ok
    {
      ok := db.UpdateAttachment(id, item);
      RewriteStaysSound(old(db.rows), db.rows, id);
      Record();
    }

    method RemoveRow(id: int) returns (ok: bool)
      requires Valid() && id in db.rows.attachments && Unembedded(db.rows, db.rows.attachments[id])
      modifies this`seen, db`rows
      ensures Valid() && FilesAllAlong(old(seen), seen)
      ensures db.rows == if ok then old(db.rows).(attachments := old(db.rows).attachments - {id}) else old(db.rows)
      ensures db.reliable ==> ok
    {
      var failed := db.CallFails();
      if failed { return false; }
      db.rows := db.rows.(attachments := db.rows.attachments - {id});
      RewriteStaysSound(old(db.rows), db.rows, id);
      Record();
      return true;
    }

    /** Makes sure a candidate is pending before its file goes. */
    method MarkCandidate(id: int, cutoff: int) returns (ok: bool)
      requires Valid() && id in db.rows.attachments && Eligible(db.rows.attachments[id], cutoff)
      modifies this`seen, db`rows
      ensures Valid() && FilesAllAlong(old(seen), seen)
      ensures id in db.rows.attachments && Eligible(db.rows.attachments[id], cutoff)
      ensures LeftBehind(old(db.rows).attachments[id], db.rows.attachments[id], cutoff)
      ensures db.rows == old(db.rows).(attachments := old(db.rows).attachments[id := db.rows.attachments[id]])
      ensures ok ==> db.rows.attachments[id].IsPendingDelete()
      ensures db.reliable ==> ok
    {
      var item := db.rows.attachments[id];
      if item.IsPendingDelete() { return true; }
      DeadIsUnembedded(db.rows, id);
      ok := MarkItem(id, item.MarkPendingDeleteAt(cutoff));
    }

    /** One candidate: mark the row, remove the file, remove the row; a failure leaves the row a candidate. */
    method CleanupItem(id: int, cutoff: int) returns (failure: Option<Error>)
      requires Valid() && id in db.rows.attachments && Eligible(db.rows.attachments[id], cutoff)
      modifies this`seen, db`rows, storage
      ensures Valid() && FilesAllAlong(old(seen), seen)
      ensures db.rows == old(db.rows).(attachments := db.rows.attachments)
      ensures failure.None? ==> db.rows.attachments == old(db.rows).attachments - {id}
      ensures storage.files <= old(storage.files)
      ensures failure.None? ==> storage.files == old(storage.files) - {old(db.rows).attachments[id].storageKey}
      ensures old(storage.files) - {old(db.rows).attachments[id].storageKey} <= storage.files
      ensures failure.Some? ==> id in db.rows.attachments && Eligible(db.rows.attachments[id], cutoff)
      ensures failure.Some? ==> LeftBehind(old(db.rows).attachments[id], db.rows.attachments[id], cutoff)
      ensures failure.Some? ==> db.rows.attachments == old(db.rows).attachments[id := db.rows.attachments[id]]
      ensures db.reliable && storage.reliable ==> failure.None?
    {
      var marked := MarkCandidate(id, cutoff);
      if !marked { return Some(RepositoryFailure); }
      var removed := RemoveFile(db.rows.attachments[id].storageKey);
      if !removed { return Some(StorageFailure); }
      DeadIsUnembedded(db.rows, id);
      var gone := RemoveRow(id);
      if !gone { return Some(RepositoryFailure); }
      return None;
    }

    /** One pass over the selected rows; it counts the rows it removed and stops at the first failure or when it is cancelled. */
    method CleanupAttachments(now: int, gracePeriod: int, limit: int, cancellable: bool) returns (deleted: nat, failure: Option<Error>)
      requires Valid()
      modifies this`seen, db, storage
      ensures Valid() && FilesAllAlong(old(seen), seen)
      ensures db.rows == old(db.rows).(attachments := db.rows.attachments)
      ensures PassLeaves(old(db.rows).attachments, db.rows.attachments, now - gracePeriod, deleted)
      ensures forall a :: a in old(db.rows).attachments && a !in db.rows.attachments ==> old(db.rows).attachments[a].storageKey !in storage.files
      ensures storage.files <= old(storage.files) && SparesFiles(old(db.rows).attachments, old(storage.files), storage.files, now - gracePeriod)
      ensures db.clock == old(db.clock)
      ensures gracePeriod <= 0 || limit <= 0 ==> deleted == 0 && failure.None?
      ensures limit > 0 ==> deleted <= limit
      ensures db.reliable && storage.reliable && !cancellable ==> failure.None?
      ensures failure.None? && gracePeriod > 0 && limit > deleted ==> NoneEligible(db.rows.attachments, now - gracePeriod)
    {
      hide *;
      var cutoff := now - gracePeriod;
      if gracePeriod <= 0 || limit <= 0 {
        PassNothing(db.rows.attachments, cutoff);
        NothingDone(seen, db.rows.attachments, storage.files, cutoff);
        return 0, None;
      }
      deleted, failure := CleanupBefore(cutoff, limit, cancellable);
    }

    method CleanupBefore(cutoff: int, limit: int, cancellable: bool) returns (deleted: nat, failure: Option<Error>)
      requires Valid() && limit > 0
      modifies this`seen, db, storage
      ensures Valid() && FilesAllAlong(old(seen), seen)
      ensures db.rows == old(db.rows).(attachments := db.rows.attachments)
      ensures PassLeaves(old(db.rows).attachments, db.rows.attachments, cutoff, deleted) && deleted <= limit
      ensures forall a :: a in old(db.rows).attachments && a !in db.rows.attachments ==> old(db.rows).attachments[a].storageKey !in storage.files
      ensures storage.files <= old(storage.files) && SparesFiles(old(db.rows).attachments, old(storage.files), storage.files, cutoff)
      ensures db.clock == old(db.clock)
      ensures db.reliable && storage.reliable && !cancellable ==> failure.None?
      ensures failure.None? && limit > deleted ==> NoneEligible(db.rows.attachments, cutoff)
    {
      hide Sound, FilesSound;
      ghost var before := db.rows.attachments;
      var items := SelectCleanupCandidates(db, cutoff, limit);
      if items.Err? {
        PassNothing(before, cutoff);
        return 0, Some(RepositoryFailure);
      }
      deleted, failure := CleanupEach(items.value, cutoff, cancellable);
      PassOf(before, db.rows.attachments, items.value[..deleted], items.value, cutoff);
      if failure.None? && limit > deleted {
        assert items.value[..deleted] == items.value;
        NothingLeft(before, db.rows.attachments, items.value, cutoff);
      }
    }

    method CleanupEach(items: seq<int>, cutoff: int, cancellable: bool) returns (deleted: nat, failure: Option<Error>)
      requires Valid() && NoDuplicates(items)
      requires forall a :: a in items ==> a in db.rows.attachments && Eligible(db.rows.attachments[a], cutoff)
      modifies this`seen, db, storage
      ensures Valid() && FilesAllAlong(old(seen), seen)
      ensures db.rows == old(db.rows).(attachments := db.rows.attachments)
      ensures deleted <= |items| && (failure.None? ==> deleted == |items|)
      ensures Cleaned(old(db.rows).attachments, db.rows.attachments, items[..deleted], items, cutoff)
      ensures storage.files <= old(storage.files) && SparesFiles(old(db.rows).attachments, old(storage.files), storage.files, cutoff)
      ensures db.clock == old(db.clock)
      ensures forall a :: a in items[..deleted] ==> old(db.rows).attachments[a].storageKey !in storage.files
      ensures db.reliable && storage.reliable && !cancellable ==> failure.None?
    {
      hide Sound, FilesSound;
      deleted, failure := 0, None;
      ghost var before := db.rows.attachments;
      while deleted < |items| && failure.None?
        invariant Valid() && FilesAllAlong(old(seen), seen) && deleted <= |items|
        invariant db.rows == old(db.rows).(attachments := db.rows.attachments)
        invariant Cleaned(before, db.rows.attachments, items[..deleted], items, cutoff)
        invariant storage.files <= old(storage.files) && SparesFiles(before, old(storage.files), storage.files, cutoff)
        invariant db.clock == old(db.clock)
        invariant forall a :: a in items[..deleted] ==> before[a].storageKey !in storage.files
        invariant failure.None? ==> forall a :: a in db.rows.attachments ==> db.rows.attachments[a] == before[a]
        invariant db.reliable && storage.reliable && !cancellable ==> failure.None?
        decreases |items| - deleted, failure.None?
      {
        var cancelled: bool := *;
        if cancelled && cancellable { failure := Some(RepositoryFailure); break; }
        assert items[..deleted + 1] == items[..deleted] + [items[deleted]];
        assert items[deleted] in items && items[deleted] !in items[..deleted];
        failure := CleanupItem(items[deleted], cutoff);
        if failure.None? { deleted := deleted + 1; }
      }
    }
  }

  /** What a pass leaves behind: all but the removed rows; listed ones stay candidates, the others stay as they were. */
  ghost predicate Cleaned(before: map<int, Attachment>, after: map<int, Attachment>, removed: seq<int>, items: seq<int>, cutoff: int) {
    && (forall a :: a in after <==> a in before && a !in removed)
    && (forall a :: a in after && a !in items ==> after[a] == before[a])
    && (forall a :: a in after && a in items ==> Eligible(after[a], cutoff) && LeftBehind(before[a], after[a], cutoff))
  }

  /** A candidate whose removal failed half way: as it was, or marked pending at the cutoff. */
  predicate LeftBehind(before: Attachment, after: Attachment, cutoff: int) {
    after == before || (before.pendingDeleteAt.None? && after == before.(pendingDeleteAt := Some(cutoff)))
  }

  /** Files that went belonged to candidates. */
  ghost predicate SparesFiles(rows: map<int, Attachment>, before: set<string>, after: set<string>, cutoff: int) {
    forall k :: k in before && k !in after ==> exists a :: a in rows && rows[a].storageKey == k && Eligible(rows[a], cutoff)
  }

  /** Only rows whose grace had run out are gone, as many as counted; one of those that is left is still a candidate. */
  ghost predicate PassLeaves(before: map<int, Attachment>, after: map<int, Attachment>, cutoff: int, deleted: nat) {
    && (forall a :: a in after ==> a in before)
    && (forall a :: a in before && !Eligible(before[a], cutoff) ==> a in after && after[a] == before[a])
    && (forall a :: a in after && Eligible(before[a], cutoff) ==> Eligible(after[a], cutoff) && LeftBehind(before[a], after[a], cutoff))
    && deleted == |before.Keys - after.Keys|
  }

  // The grace period.

  /** The row is there and carries no mark from before a moment. */
  predicate UnmarkedBefore(rows: map<int, Attachment>, a: int, since: int) {
    && a in rows
    && (rows[a].orphanedAt.Some? ==> rows[a].orphanedAt.value >= since)
    && (rows[a].pendingDeleteAt.Some? ==> rows[a].pendingDeleteAt.value >= since)
  }

  /** A row without a mark from before the cutoff survives a pass as it is, and its file with it. */
  lemma GraceProtects(before: Rows, after: Rows, files: set<string>, left: set<string>, a: int, since: int, cutoff: int, deleted: nat)
    requires PassLeaves(before.attachments, after.attachments, cutoff, deleted) && SparesFiles(before.attachments, files, left, cutoff)
    requires KeysUnique(before) && UnmarkedBefore(before.attachments, a, since) && cutoff < since
    ensures a in after.attachments && after.attachments[a] == before.attachments[a]
    ensures before.attachments[a].storageKey in files ==> before.attachments[a].storageKey in left
  {
    assert !Eligible(before.attachments[a], cutoff);
  }

  /** A file just uploaded, or one that was embedded until this edit, survives every pass whose cutoff lies before the call. */
  lemma FreshSurvives(before: Rows, after: Rows, final: Rows, files: set<string>, left: set<string>, a: int, from: int, to: int, cutoff: int, deleted: nat)
    requires FreshMarks(before.attachments, after.attachments, from, to) && a in after.attachments && KeysUnique(after)
    requires a in before.attachments ==> IsLive(before.attachments[a])
    requires PassLeaves(after.attachments, final.attachments, cutoff, deleted) && SparesFiles(after.attachments, files, left, cutoff)
    requires cutoff < from
    ensures a in final.attachments && final.attachments[a] == after.attachments[a]
    ensures after.attachments[a].storageKey in files ==> after.attachments[a].storageKey in left
  {
    GraceProtects(after, final, files, left, a, from, cutoff, deleted);
  }

  lemma AttachedIsFresh(before: Rows, after: Rows, id: int, post: int, uuid: string, key: string, from: int, to: int)
    requires Attached(before, after, id, post, uuid, key) && from <= after.attachments[id].orphanedAt.value <= to
    ensures FreshMarks(before.attachments, after.attachments, from, to)
  {
  }

  /** A row that nobody embeds goes at its time and not before: orphaned at `t`, it is a candidate from cutoff `t` on; a row
      pending deletion counts from that mark instead. */
  lemma EligibleIff(a: Attachment, cutoff: int)
    ensures a.pendingDeleteAt == None && a.orphanedAt == None ==> !Eligible(a, cutoff)
    ensures forall t :: a.pendingDeleteAt == None && a.orphanedAt == Some(t) ==> (Eligible(a, cutoff) <==> t <= cutoff)
    ensures forall t :: a.pendingDeleteAt == Some(t) ==> (Eligible(a, cutoff) <==> t <= cutoff)
  {
  }

  predicate NoneEligible(attachments: map<int, Attachment>, cutoff: int) {
    forall a :: a in attachments ==> !Eligible(attachments[a], cutoff)
  }

  lemma PassNothing(before: map<int, Attachment>, cutoff: int)
    ensures PassLeaves(before, before, cutoff, 0)
  {
    assert before.Keys - before.Keys == {};
  }

  lemma NothingDone(seen: seq<State>, rows: map<int, Attachment>, files: set<string>, cutoff: int)
    ensures FilesAllAlong(seen, seen) && SparesFiles(rows, files, files, cutoff)
  {
  }

  lemma PassOf(before: map<int, Attachment>, after: map<int, Attachment>, removed: seq<int>, items: seq<int>, cutoff: int)
    requires NoDuplicates(items) && removed <= items && Cleaned(before, after, removed, items, cutoff)
    requires forall a :: a in items ==> a in before && Eligible(before[a], cutoff)
    ensures PassLeaves(before, after, cutoff, |removed|)
  {
    assert forall a :: a in removed ==> a in items;
    GoneAreListed(removed, before, after);
  }

  /** When all that was eligible has been listed and removed, nothing eligible is left. */
  lemma NothingLeft(before: map<int, Attachment>, after: map<int, Attachment>, items: seq<int>, cutoff: int)
    requires Cleaned(before, after, items, items, cutoff)
    requires forall a :: a in before && Eligible(before[a], cutoff) ==> a in items
    ensures NoneEligible(after, cutoff)
  {
  }

  lemma GoneAreListed(removed: seq<int>, before: map<int, Attachment>, after: map<int, Attachment>)
    requires NoDuplicates(removed) && (forall a :: a in removed ==> a in before)
    requires forall a :: a in after <==> a in before && a !in removed
    ensures |before.Keys - after.Keys| == |removed|
  {
    var gone := before.Keys - after.Keys;
    forall a ensures a in removed <==> a in gone {
      assert a in gone <==> a in before && a !in after;
    }
    SizeOfList(removed, gone);
  }
}
