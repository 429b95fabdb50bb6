/** The Comment schema (models/commentModel.js). */
module CommentModel {
  import opened Common

  /** The paths of a Comment document; `author` is an optional reference. */
  datatype Comment = Comment(
    content: Option<string>,
    createdAt: nat,
    article: Option<Id>,
    author: Option<Id>)

  const ContentMaxLength := 500

  /** Every validator of the schema passes. */
  predicate Valid(c: Comment)
  {
    Present(c.content) && |c.content.value| <= ContentMaxLength && c.article.Some?
  }

  /** `new Comment({...})`: `createdAt` takes its default, the time of creation `now`, when it is not
      supplied. */
  function NewComment(content: Option<string>, article: Option<Id>, author: Option<Id>,
                      createdAt: Option<nat>, now: nat): (c: Comment)
    ensures c.content == content && c.article == article && c.author == author
    ensures createdAt.None? ==> c.createdAt == now
    ensures createdAt.Some? ==> c.createdAt == createdAt.value
  {
    Comment(content, if createdAt.Some? then createdAt.value else now, article, author)
  }

  /** The error, if any, with which inserting a new comment `c` under `id` into `stored` fails. */
  function InsertError(stored: map<Id, Comment>, id: Id, c: Comment): (e: Option<SaveError>)
    ensures !Present(c.content) || |c.content.value| > ContentMaxLength ==> e == Some(ValidationFailed)
    ensures c.article.None? ==> e == Some(ValidationFailed)
    // a reused `_id` is refused by its unique index
    ensures Valid(c) && id in stored ==> e == Some(DuplicateKey)
    // the author reference is optional
    ensures Present(c.content) && |c.content.value| <= ContentMaxLength && c.article.Some? && id !in stored
            ==> e.None?
    ensures e.None? ==> Valid(c) && id !in stored
  {
    if !Valid(c) then Some(ValidationFailed)
    else if id in stored then Some(DuplicateKey)
    else None
  }
}
