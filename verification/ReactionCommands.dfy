/** Setting and clearing a user's reaction, each with its event in the same transaction. */
module ReactionCommands {
  import opened Text
  import opened Events
  import opened ForumStore

  datatype Edit = SetTo(kind: ReactionKind) | Clear

  function PublishedPost(rows: Rows, id: int): Option<int> {
    if id in rows.posts && rows.posts[id].status == Published then Some(id) else None
  }

  /** The post a reaction shows on: the published target itself, or the published post of an active comment. */
  function TargetPost(rows: Rows, target: TargetType, id: int): Option<int> {
    match target
    case PostTarget => PublishedPost(rows, id)
    case CommentTarget => if id in rows.comments && rows.comments[id].active then PublishedPost(rows, rows.comments[id].post) else None
  }

  /** Field by field: a published post, or an active comment on one. */
  predicate MayReact(rows: Rows, target: TargetType, id: int) {
    match target
    case PostTarget => id in rows.posts && rows.posts[id].status == Published
    case CommentTarget =>
      && id in rows.comments && rows.comments[id].active
      && rows.comments[id].post in rows.posts && rows.posts[rows.comments[id].post].status == Published
  }

  /** A change of one entry, told by one event; an edit that changes nothing tells nothing. */
  ghost predicate Reacted(before: Rows, after: Rows, key: ReactionKey, edit: Edit) {
    var had := if key in before.reactions then Some(before.reactions[key]) else None;
    && MayReact(before, key.target, key.id)
    && var post := if key.target.PostTarget? then key.id else before.comments[key.id].post;
    && after == before.(reactions := after.reactions, outbox := after.outbox)
    && match edit
       case SetTo(kind) =>
         && after.reactions == before.reactions[key := kind]
         && after.outbox == before.outbox + (if had == Some(kind) then [] else [ReactionChanged(false, key.target, key.id, post, key.user, kind)])
       case Clear =>
         && after.reactions == before.reactions - {key}
         && after.outbox == before.outbox + (if had.None? then [] else [ReactionChanged(true, key.target, key.id, post, key.user, had.value)])
  }

  lemma {:induction false} ReactedReplays(before: Rows, after: Rows, key: ReactionKey, edit: Edit)
    requires Replay(before.outbox) == before.reactions && Reacted(before, after, key, edit)
    ensures Replay(after.outbox) == after.reactions
  {
    if after.outbox != before.outbox {
      var e := after.outbox[|after.outbox| - 1];
      assert after.outbox == before.outbox + [e];
      ReplayOne(before.outbox, e);
      assert ReactionKey(e.user, e.target, e.id) == key;
    }
  }

  lemma {:induction false} ReactedStaysSound(before: Rows, after: Rows, key: ReactionKey, edit: Edit)
    requires Sound(before) && Reacted(before, after, key, edit)
    ensures Sound(after)
  {
    ReactedReplays(before, after, key, edit);
    assert forall k :: k in after.reactions ==> k in before.reactions || k == key;
  }

  method SetUserTargetReaction(db: Database, key: ReactionKey, kind: ReactionKind) returns (r: Result<(bool, bool)>)
    modifies db`rows
    ensures db.reliable ==> r.Ok?
    ensures r.Ok? ==> db.rows == old(db.rows).(reactions := old(db.rows).reactions[key := kind])
    ensures r.Ok? ==> r.value.0 == (key !in old(db.rows).reactions)
    ensures r.Ok? ==> r.value.1 == (key !in old(db.rows).reactions || old(db.rows).reactions[key] != kind)
  {
    var failed := db.CallFails();
    if failed { return Err(RepositoryFailure); }
    var created := key !in db.rows.reactions;
    var changed := created || db.rows.reactions[key] != kind;
    db.rows := db.rows.(reactions := db.rows.reactions[key := kind]);
    return Ok((created, changed));
  }

  method DeleteUserTargetReaction(db: Database, key: ReactionKey) returns (r: Result<bool>)
    modifies db`rows
    ensures db.reliable ==> r.Ok?
    ensures r.Ok? ==> db.rows == old(db.rows).(reactions := old(db.rows).reactions - {key}) && r.value == (key in old(db.rows).reactions)
  {
    var failed := db.CallFails();
    if failed { return Err(RepositoryFailure); }
    var deleted := key in db.rows.reactions;
    db.rows := db.rows.(reactions := db.rows.reactions - {key});
    return Ok(deleted);
  }

  method SetMutation(db: Database, key: ReactionKey, kind: ReactionKind, post: int) returns (r: Result<(bool, bool)>)
    requires TargetPost(db.rows, key.target, key.id) == Some(post)
    modifies db`rows
    ensures db.reliable ==> r.Ok?
    ensures r.Ok? ==> Reacted(old(db.rows), db.rows, key, SetTo(kind)) && r.value.0 == (key !in old(db.rows).reactions)
  {
    r := SetUserTargetReaction(db, key, kind);
    if r.Err? { return; }
    if r.value.0 || r.value.1 {
      var announced := db.Append(ReactionChanged(false, key.target, key.id, post, key.user, kind));
      if !announced { return Err(RepositoryFailure); }
    }
  }

  method ClearMutation(db: Database, key: ReactionKey, post: int) returns (r: Result<(bool, bool)>)
    requires TargetPost(db.rows, key.target, key.id) == Some(post)
    modifies db`rows
    ensures db.reliable ==> r.Ok?
    ensures r.Ok? ==> Reacted(old(db.rows), db.rows, key, Clear)
  {
    var failed := db.CallFails();
    if failed { return Err(RepositoryFailure); }
    var existing := if key in db.rows.reactions then Some(db.rows.reactions[key]) else None;
    var deleted := DeleteUserTargetReaction(db, key);
    if deleted.Err? { return Err(deleted.error); }
    if deleted.value && existing.Some? {
      var announced := db.Append(ReactionChanged(true, key.target, key.id, post, key.user, existing.value));
      if !announced { return Err(RepositoryFailure); }
    }
    return Ok((deleted.value, deleted.value));
  }

  method WithReactionTransaction(db: Database, key: ReactionKey, edit: Edit) returns (r: Result<(bool, bool)>)
    requires Sound(db.rows)
    modifies db`rows
    ensures Sound(db.rows)
    ensures r.Err? ==> db.rows == old(db.rows)
    ensures db.reliable && MayReact(old(db.rows), key.target, key.id) ==> r.Ok?
    ensures r.Ok? ==> Reacted(old(db.rows), db.rows, key, edit)
    ensures r.Ok? && edit.SetTo? ==> r.value.0 == (key !in old(db.rows).reactions)
  {
    var saved := db.rows;
    var refused := db.CheckRequester();
    if refused.Some? { return Err(refused.value); }
    var post := TargetPost(db.rows, key.target, key.id);
    if post.None? { return Err(NotFound); }
    match edit {
      case SetTo(kind) => r := SetMutation(db, key, kind, post.value);
      case Clear => r := ClearMutation(db, key, post.value);
    }
    if r.Ok? {
      var failed := db.CallFails();
      if failed { r := Err(RepositoryFailure); }
    }
    if r.Err? { db.rows := saved; } else { ReactedStaysSound(saved, db.rows, key, edit); }
  }

  /** True when the user had no reaction on the target before. */
  method SetReaction(db: Database, user: int, target: TargetType, id: int, kind: ReactionKind) returns (r: Result<bool>)
    requires Sound(db.rows)
    modifies db`rows
    ensures Sound(db.rows)
    ensures r.Err? ==> db.rows == old(db.rows)
    ensures db.reliable && MayReact(old(db.rows), target, id) ==> r.Ok?
    ensures r.Ok? ==> Reacted(old(db.rows), db.rows, ReactionKey(user, target, id), SetTo(kind))
    ensures r.Ok? ==> r.value == (ReactionKey(user, target, id) !in old(db.rows).reactions)
  {
    var outcome := WithReactionTransaction(db, ReactionKey(user, target, id), SetTo(kind));
    if outcome.Err? { return Err(outcome.error); }
    return Ok(outcome.value.0);
  }

  method DeleteReaction(db: Database, user: int, target: TargetType, id: int) returns (r: Result<()>)
    requires Sound(db.rows)
    modifies db`rows
    ensures Sound(db.rows)
    ensures r.Err? ==> db.rows == old(db.rows)
    ensures db.reliable && MayReact(old(db.rows), target, id) ==> r.Ok?
    ensures r.Ok? ==> Reacted(old(db.rows), db.rows, ReactionKey(user, target, id), Clear)
  {
    var outcome := WithReactionTransaction(db, ReactionKey(user, target, id), Clear);
    if outcome.Err? { return Err(outcome.error); }
    return Ok(());
  }
}
