/** The domain events that the application writes to its outbox, with the fields their handlers read. */
module Events {

  datatype TargetType = PostTarget | CommentTarget

  datatype ReactionKind = Like | Dislike

  datatype Event =
    | BoardChanged(board: int, visibility: bool)
    | PostChanged(post: int, board: int, tags: seq<string>, deleted: bool, comments: seq<int>)
    | CommentChanged(comment: int, post: int, deleted: bool)
    | ReactionChanged(unset: bool, target: TargetType, id: int, post: int, user: int, kind: ReactionKind)
    | AttachmentChanged(post: int)
}
