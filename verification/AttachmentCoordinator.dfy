/** Keeping attachment rows in step with what a post embeds. */
module AttachmentCoordinator {
  import opened Text
  import opened Lists
  import opened Embeds
  import opened ForumStore

  /** A row that the post may embed. */
  ghost predicate Usable(attachments: map<int, Attachment>, post: int, ref: string) {
    exists a :: a in attachments && attachments[a].uuid == ref && attachments[a].post == post && !attachments[a].IsPendingDelete()
  }

  /** What synchronising one row means: referenced or orphaned, and nothing else changed. */
  predicate RowSynced(before: Attachment, after: Attachment, refs: set<string>) {
    && after == before.(orphanedAt := after.orphanedAt)
    && (before.uuid in refs ==> after.orphanedAt.None?)
    && (before.uuid !in refs ==> after.orphanedAt.Some? && (before.orphanedAt.Some? ==> after == before))
  }

  ghost predicate Synced(before: map<int, Attachment>, after: map<int, Attachment>, post: int, refs: set<string>) {
    && (forall a :: a in after <==> a in before)
    && (forall a :: a in before && before[a].post != post ==> after[a] == before[a])
    && (forall a :: a in before && before[a].post == post ==> RowSynced(before[a], after[a], refs))
  }

  method SelectByUUID(db: Database, uuid: string) returns (r: Result<Option<int>>)
    ensures db.reliable ==> r.Ok?
    ensures r.Ok? && r.value.Some? ==> r.value.value in db.rows.attachments && db.rows.attachments[r.value.value].uuid == uuid
    ensures r.Ok? && r.value.None? ==> forall a :: a in db.rows.attachments ==> db.rows.attachments[a].uuid != uuid
  {
    var failed := db.CallFails();
    if failed { return Err(RepositoryFailure); }
    var ids := ListOf(db.rows.attachments.Keys);
    for i := 0 to |ids|
      invariant forall k :: 0 <= k < i ==> db.rows.attachments[ids[k]].uuid != uuid
    {
      if db.rows.attachments[ids[i]].uuid == uuid { return Ok(Some(ids[i])); }
    }
    return Ok(None);
  }

  method SelectByPostID(db: Database, post: int) returns (r: Result<seq<int>>)
    ensures db.reliable ==> r.Ok?
    ensures r.Ok? ==> NoDuplicates(r.value)
    ensures r.Ok? ==> forall a :: a in r.value <==> a in db.rows.attachments && db.rows.attachments[a].post == post
  {
    var failed := db.CallFails();
    if failed { return Err(RepositoryFailure); }
    var ids := ListOf(set a | a in db.rows.attachments && db.rows.attachments[a].post == post);
    return Ok(ids);
  }

  lemma OnlyRow(attachments: map<int, Attachment>, a: int, post: int, ref: string)
    requires UniqueUUIDs(attachments) && a in attachments && attachments[a].uuid == ref
    ensures Usable(attachments, post, ref) <==> attachments[a].post == post && !attachments[a].IsPendingDelete()
  {
  }

  /** Accepts a text when every id it embeds is a row of the post that is not about to be deleted. */
  method ValidateAttachmentRefs(db: Database, post: int, content: string) returns (refused: Option<Error>)
    requires UniqueUUIDs(db.rows.attachments)
    ensures db.reliable && (forall r :: r in Refs(content) ==> Usable(db.rows.attachments, post, r)) ==> refused.None?
    ensures refused.None? ==> forall r :: r in Refs(content) ==> Usable(db.rows.attachments, post, r)
    ensures refused == Some(InvalidInput) ==> exists r :: r in Refs(content) && !Usable(db.rows.attachments, post, r)
  {
    var refs := ExtractAttachmentRefs(content);
    for i := 0 to |refs|
      invariant forall k :: 0 <= k < i ==> Usable(db.rows.attachments, post, refs[k])
    {
      var found := SelectByUUID(db, refs[i]);
      if found.Err? { return Some(RepositoryFailure); }
      assert refs[i] in Refs(content);
      if found.value.None? {
        assert !Usable(db.rows.attachments, post, refs[i]);
        return Some(InvalidInput);
      }
      var a := found.value.value;
      var row := db.rows.attachments[a];
      OnlyRow(db.rows.attachments, a, post, refs[i]);
      if row.post != post || row.IsPendingDelete() { return Some(InvalidInput); }
    }
    return None;
  }

  /** Marks the post's rows: referenced when embedded, orphaned when not. */
  method SyncPostAttachmentOrphans(db: Database, post: int, content: string) returns (ok: bool)
    modifies db
    ensures db.reliable ==> ok
    ensures ok ==> db.rows == old(db.rows).(attachments := db.rows.attachments)
    ensures ok ==> Synced(old(db.rows).attachments, db.rows.attachments, post, Refs(content))
    ensures db.clock >= old(db.clock) && FreshMarks(old(db.rows).attachments, db.rows.attachments, old(db.clock), db.clock)
  {
    var items := SelectByPostID(db, post);
    if items.Err? { return false; }
    var refs := ExtractAttachmentRefs(content);
    ok := WriteBack(db, post, items.value, set r | r in refs);
    assert (set r | r in refs) == Refs(content);
  }

  method OrphanPostAttachments(db: Database, post: int) returns (ok: bool)
    modifies db
    ensures db.reliable ==> ok
    ensures ok ==> db.rows == old(db.rows).(attachments := db.rows.attachments)
    ensures ok ==> Synced(old(db.rows).attachments, db.rows.attachments, post, {})
    ensures db.clock >= old(db.clock) && FreshMarks(old(db.rows).attachments, db.rows.attachments, old(db.clock), db.clock)
  {
    var items := SelectByPostID(db, post);
    if items.Err? { return false; }
    ok := WriteBack(db, post, items.value, {});
  }

  method WriteBack(db: Database, post: int, items: seq<int>, refs: set<string>) returns (ok: bool)
    requires NoDuplicates(items)
    requires forall a :: a in items <==> a in db.rows.attachments && db.rows.attachments[a].post == post
    modifies db
    ensures db.reliable ==> ok
    ensures ok ==> db.rows == old(db.rows).(attachments := db.rows.attachments)
    ensures ok ==> Synced(old(db.rows).attachments, db.rows.attachments, post, refs)
    ensures db.clock >= old(db.clock) && FreshMarks(old(db.rows).attachments, db.rows.attachments, old(db.clock), db.clock)
  {
    ghost var before := db.rows;
    for i := 0 to |items|
      invariant db.rows == before.(attachments := db.rows.attachments)
      invariant db.clock >= old(db.clock) && FreshMarks(before.attachments, db.rows.attachments, old(db.clock), db.clock)
      invariant forall a :: a in db.rows.attachments <==> a in before.attachments
      invariant forall a :: a in items ==> a in before.attachments
      invariant forall a :: a in before.attachments && a !in items[..i] ==> db.rows.attachments[a] == before.attachments[a]
      invariant forall a :: a in items[..i] ==> RowSynced(before.attachments[a], db.rows.attachments[a], refs)
    {
      assert items[i] in items;
      var item := db.rows.attachments[items[i]];
      assert items[i] !in items[..i] && items[..i + 1] == items[..i] + [items[i]];
      if item.uuid in refs {
        item := item.MarkReferenced();
      } else {
        var now := db.Now();
        item := item.MarkOrphaned(now);
      }
      var saved := db.UpdateAttachment(items[i], item);
      if !saved { return false; }
    }
    assert items[..|items|] == items;
    return true;
  }

  /** Usable ids become backed once the rows are synchronised with the text. */
  lemma SyncBacks(before: map<int, Attachment>, after: map<int, Attachment>, post: int, refs: set<string>, ref: string)
    requires Synced(before, after, post, refs) && ref in refs && Usable(before, post, ref)
    ensures Backed(after, post, ref)
  {
    var a :| a in before && before[a].uuid == ref && before[a].post == post && !before[a].IsPendingDelete();
    assert RowSynced(before[a], after[a], refs);
  }

  /** Synchronising one post leaves what other posts embed as it was. */
  lemma SyncSpares(before: map<int, Attachment>, after: map<int, Attachment>, post: int, refs: set<string>, other: int, ref: string)
    requires Synced(before, after, post, refs) && other != post && Backed(before, other, ref)
    ensures Backed(after, other, ref)
  {
    var a :| a in before && before[a].uuid == ref && before[a].post == other && IsLive(before[a]);
    assert after[a] == before[a];
  }

  lemma SyncKeepsRows(before: map<int, Attachment>, after: map<int, Attachment>, post: int, refs: set<string>)
    requires Synced(before, after, post, refs)
    ensures forall a :: a in before ==> after[a].uuid == before[a].uuid && after[a].post == before[a].post
    ensures UniqueUUIDs(before) ==> UniqueUUIDs(after)
  {
    forall a | a in before ensures after[a].uuid == before[a].uuid && after[a].post == before[a].post {
      assert before[a].post == post ==> RowSynced(before[a], after[a], refs);
    }
  }
}
