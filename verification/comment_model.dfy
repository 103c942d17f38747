/** The Comment document: its fields, defaults, validators and virtual
    counts. No handler of the model creates comments; the schema is modelled
    so that its rules are stated once. */
module CommentModel {
  import opened Common
  import opened Js

  const ContentMaxLength := 1000

  /** A stored comment; `parentComment` is null (None) for a top-level one. */
  datatype Comment = Comment(
    content: string,
    author: UserId,
    video: VideoId,
    parentComment: Option<CommentId>,
    replies: seq<CommentId>,
    likes: seq<UserId>,
    dislikes: seq<UserId>,
    isEdited: bool,
    isDeleted: bool,
    createdAt: int,
    updatedAt: int)

  /** The save-time validators: `content` required (not empty once trimmed)
      and at most 1000 UTF-16 units. */
  predicate Valid(c: Comment) {
    |c.content| > 0 && Utf16Length(c.content) <= ContentMaxLength
  }

  /** The fields handed to `Comment.create`. */
  datatype CommentDraft = CommentDraft(
    content: Option<string>,
    author: Option<UserId>,
    video: Option<VideoId>,
    parentComment: Option<CommentId>)

  predicate Acceptable(d: CommentDraft) {
    && d.content.Some? && |Trim(d.content.value)| > 0
    && Utf16Length(Trim(d.content.value)) <= ContentMaxLength
    && d.author.Some? && d.video.Some?
  }

  /** `Comment.create(d)` at time `now`: trim `content`, apply the defaults,
      validate; None is the ValidationError. */
  function Create(d: CommentDraft, now: int): (r: Option<Comment>)
    ensures r.Some? <==> Acceptable(d)
    ensures r.Some? ==> var c := r.value;
      && Valid(c)
      && IsTrimOf(c.content, d.content.value)
      && c.author == d.author.value && c.video == d.video.value
      && c.parentComment == d.parentComment
      && c.replies == [] && c.likes == [] && c.dislikes == []
      && !c.isEdited && !c.isDeleted
      && c.createdAt == now && c.updatedAt == now
  {
    if d.content.None? || d.author.None? || d.video.None? then None
    else
      var c := Comment(Trim(d.content.value), d.author.value, d.video.value, d.parentComment,
                       [], [], [], false, false, now, now);
      if Valid(c) then Some(c) else None
  }

  /** A comment as a response carries it, with the virtual counts. */
  datatype CommentJson = CommentJson(comment: Comment, likeCount: nat, replyCount: nat)

  function ToJson(c: Comment): (j: CommentJson)
    ensures j.comment == c
    ensures j.likeCount == |c.likes| && j.replyCount == |c.replies|
  {
    CommentJson(c, |c.likes|, |c.replies|)
  }
}
