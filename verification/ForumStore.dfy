/** The forum's tables, what every reachable state of them promises, and the repositories that change them. */
module ForumStore {
  import opened Text
  import opened Lists
  import opened Events
  import opened Embeds

  datatype PostStatus = Draft | Published | Deleted

  datatype Post = Post(author: int, board: int, title: string, content: string, status: PostStatus)

  datatype Comment = Comment(author: int, post: int, parent: Option<int>, active: bool)

  datatype Attachment = Attachment(uuid: string, post: int, storageKey: string, orphanedAt: Option<int>, pendingDeleteAt: Option<int>) {
    function MarkReferenced(): Attachment { this.(orphanedAt := None) }

    function MarkOrphaned(now: int): Attachment { if orphanedAt.Some? then this else this.(orphanedAt := Some(now)) }

    predicate IsOrphaned() { orphanedAt.Some? }

    function MarkPendingDeleteAt(at: int): Attachment { if pendingDeleteAt.Some? then this else this.(pendingDeleteAt := Some(at)) }

    predicate IsPendingDelete() { pendingDeleteAt.Some? }
  }

  datatype ReactionKey = ReactionKey(user: int, target: TargetType, id: int)

  datatype Rows = Rows(
    posts: map<int, Post>,
    tags: map<int, string>,
    relations: map<(int, int), bool>,
    attachments: map<int, Attachment>,
    comments: map<int, Comment>,
    reactions: map<ReactionKey, ReactionKind>,
    outbox: seq<Event>
  )

  const NO_ROWS := Rows(map[], map[], map[], map[], map[], map[], [])

  // Reactions: the log and the table.

  function WithoutTarget(table: map<ReactionKey, ReactionKind>, target: TargetType, ids: set<int>): map<ReactionKey, ReactionKind> {
    map k | k in table && !(k.target == target && k.id in ids) :: table[k]
  }

  function SetOf(ids: seq<int>): set<int> { set i | i in ids }

  /** What one event of the log does to a table of reactions. */
  function Apply(table: map<ReactionKey, ReactionKind>, e: Event): map<ReactionKey, ReactionKind> {
    match e
    case ReactionChanged(unset, target, id, _, user, kind) =>
      if unset then table - {ReactionKey(user, target, id)} else table[ReactionKey(user, target, id) := kind]
    case CommentChanged(comment, _, true) => WithoutTarget(table, CommentTarget, {comment})
    case PostChanged(post, _, _, true, comments) =>
      WithoutTarget(WithoutTarget(table, CommentTarget, SetOf(comments)), PostTarget, {post})
    case _ => table
  }

  /** The table that a reader of the log alone would build. */
  function Replay(log: seq<Event>): map<ReactionKey, ReactionKind> {
    if log == [] then map[] else Apply(Replay(log[..|log| - 1]), log[|log| - 1])
  }

  lemma {:induction false} ReplayOne(log: seq<Event>, e: Event)
    ensures Replay(log + [e]) == Apply(Replay(log), e)
  {
    assert (log + [e])[..|log|] == log;
  }

  ghost predicate ReactionsSound(rows: Rows) {
    && Replay(rows.outbox) == rows.reactions
    && (forall k :: k in rows.reactions && k.target.PostTarget? ==> k.id in rows.posts && rows.posts[k.id].status == Published)
    && (forall k :: k in rows.reactions && k.target.CommentTarget? ==> k.id in rows.comments && rows.comments[k.id].active)
  }

  // Comments: one level of replies, and nothing active under a post that is not published.

  predicate IsRoot(rows: Rows, comment: int, post: int) {
    comment in rows.comments && rows.comments[comment].post == post && rows.comments[comment].parent.None?
  }

  ghost predicate CommentsSound(rows: Rows) {
    && (forall c :: c in rows.comments ==> c > 0 && rows.comments[c].post in rows.posts)
    && (forall c :: c in rows.comments && rows.comments[c].active ==> rows.posts[rows.comments[c].post].status == Published)
    && (forall c :: c in rows.comments && rows.comments[c].parent.Some? ==> IsRoot(rows, rows.comments[c].parent.value, rows.comments[c].post))
  }

  // Tags: one row per name.

  predicate Tagged(rows: Rows, post: int, tag: int) { (post, tag) in rows.relations && rows.relations[(post, tag)] }

  function ActiveTags(rows: Rows, post: int): set<string> { set t | t in rows.tags && Tagged(rows, post, t) :: rows.tags[t] }

  ghost predicate NamesSound(tags: map<int, string>) {
    && (forall t :: t in tags ==> tags[t] != "")
    && (forall t, u :: t in tags && u in tags && tags[t] == tags[u] ==> t == u)
  }

  ghost predicate TagsSound(rows: Rows) {
    && NamesSound(rows.tags)
    && (forall p, t :: (p, t) in rows.relations ==> p in rows.posts && t in rows.tags)
  }

  // Attachments: what a post embeds is there and will not be cleaned up.

  predicate IsLive(a: Attachment) { !a.IsOrphaned() && !a.IsPendingDelete() }

  /** A mark that a row did not carry before is a time between `from` and `to`. */
  ghost predicate FreshMarks(before: map<int, Attachment>, after: map<int, Attachment>, from: int, to: int) {
    forall a :: a in after ==>
      && ((a in before && after[a].orphanedAt == before[a].orphanedAt) || MarkedIn(after[a].orphanedAt, from, to))
      && ((a in before && after[a].pendingDeleteAt == before[a].pendingDeleteAt) || MarkedIn(after[a].pendingDeleteAt, from, to))
  }

  predicate MarkedIn(mark: Option<int>, from: int, to: int) { mark.Some? ==> from <= mark.value <= to }

  ghost predicate Backed(attachments: map<int, Attachment>, post: int, ref: string) {
    exists a :: a in attachments && attachments[a].uuid == ref && attachments[a].post == post && IsLive(attachments[a])
  }

  ghost predicate UniqueUUIDs(attachments: map<int, Attachment>) {
    forall a, b :: a in attachments && b in attachments && attachments[a].uuid == attachments[b].uuid ==> a == b
  }

  ghost predicate EmbedsBacked(rows: Rows) {
    forall p, r :: p in rows.posts && rows.posts[p].status != Deleted && r in Refs(rows.posts[p].content) ==> Backed(rows.attachments, p, r)
  }

  ghost predicate AttachmentsSound(rows: Rows) {
    && UniqueUUIDs(rows.attachments)
    && (forall a :: a in rows.attachments ==> rows.attachments[a].post in rows.posts)
    && EmbedsBacked(rows)
  }

  /** Everything promised of the tables between two transactions. */
  ghost predicate Sound(rows: Rows) {
    ReactionsSound(rows) && CommentsSound(rows) && TagsSound(rows) && AttachmentsSound(rows)
  }

  lemma {:induction false} NoRowsAreSound()
    ensures Sound(NO_ROWS)
  {
  }

  class Database {
    var rows: Rows
    var clock: int
    /** On a reliable database no call fails and no check refuses; otherwise any may. */
    const reliable: bool

    constructor (start: int, reliable: bool)
      ensures rows == NO_ROWS && this.reliable == reliable
    {
      rows, clock, this.reliable := NO_ROWS, start, reliable;
    }

    /** Any call on a repository or the outbox may fail. */
    method CallFails() returns (failed: bool)
      ensures reliable ==> !failed
    {
      failed := *;
      if reliable { failed := false; }
    }

    /** The requester is unknown, a guest, suspended, or not the owner; or the board is hidden; or nothing is wrong. */
    method CheckRequester() returns (refused: Option<Error>)
      ensures reliable ==> refused.None?
    {
      var missing, forbidden: bool := *, *;
      var failed := CallFails();
      refused := if reliable then None
        else if failed then Some(RepositoryFailure) else if missing then Some(NotFound) else if forbidden then Some(Forbidden) else None;
    }

    method Now() returns (t: int)
      modifies this`clock
      ensures t == clock >= old(clock)
    {
      var passed: int := *;
      if passed > 0 { clock := clock + passed; }
      t := clock;
    }

    /** Ids are given out by the tables: positive and never in use. */
    method FreshID(used: set<int>) returns (id: int)
      ensures id > 0 && id !in used
    {
      id := 1;
      var ids := ListOf(used);
      for k := 0 to |ids|
        invariant id > 0 && forall j :: 0 <= j < k ==> ids[j] < id
      {
        if ids[k] >= id { id := ids[k] + 1; }
      }
      var skipped: int := *;
      if skipped > 0 && id + skipped !in used { id := id + skipped; }
    }

    method SavePost(post: Post) returns (r: Result<int>)
      modifies this`rows
      ensures reliable ==> r.Ok?
      ensures r.Ok? ==> r.value > 0 && r.value !in old(rows).posts && rows == old(rows).(posts := old(rows).posts[r.value := post])
    {
      var failed := CallFails();
      if failed { return Err(RepositoryFailure); }
      var id := FreshID(rows.posts.Keys);
      rows := rows.(posts := rows.posts[id := post]);
      return Ok(id);
    }

    method UpdatePostRow(id: int, post: Post) returns (ok: bool)
      requires id in rows.posts
      modifies this`rows
      ensures reliable ==> ok
      ensures ok ==> rows == old(rows).(posts := old(rows).posts[id := post])
    {
      var failed := CallFails();
      if failed { return false; }
      rows := rows.(posts := rows.posts[id := post]);
      return true;
    }

    method UpdateAttachment(id: int, row: Attachment) returns (ok: bool)
      modifies this`rows
      ensures reliable ==> ok
      ensures rows == if ok && id in old(rows).attachments then old(rows).(attachments := old(rows).attachments[id := row]) else old(rows)
    {
      var failed := CallFails();
      if failed { return false; }
      if id in rows.attachments { rows := rows.(attachments := rows.attachments[id := row]); }
      return true;
    }

    method Append(e: Event) returns (ok: bool)
      modifies this`rows
      ensures reliable ==> ok
      ensures ok ==> rows == old(rows).(outbox := old(rows).outbox + [e])
    {
      var failed := CallFails();
      if failed { return false; }
      rows := rows.(outbox := rows.outbox + [e]);
      return true;
    }
  }
}
