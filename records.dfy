/**
 The records the poller works on: comments as fetched from a forum, the
 submissions that hold them, and the flagged comment record it keeps.
 */
module Records {

  datatype Option<+T> = None | Some(value: T)

  /**
   A reply as fetched from the content source. `author` is None when the
   account is deleted; `parentId` is the raw parent reference, whose first
   three characters are a kind prefix.
   */
  datatype Fetched = Fetched(id: string, author: Option<string>, body: string, parentId: string, permalink: string)

  /** A submission of one subreddit and the flattened list of its replies. */
  datatype Submission = Submission(subreddit: string, comments: seq<Fetched>)

  /**
   A flagged reply. `parentId` is None while no parent is resolved, which is
   the integer 0 the source starts the field with; the other parent fields
   are then empty strings.
   */
  datatype Comment = Comment(
    id: string,
    author: string,
    body: string,
    subreddit: string,
    url: string,
    parentId: Option<string>,
    parentAuthor: string,
    parentBody: string,
    parentUrl: string)

  /** The author's name, or the empty string for a deleted author. */
  function AuthorName(author: Option<string>): (name: string)
    ensures author.Some? ==> name == author.value
    ensures author.None? ==> name == ""
  {
    match author
    case Some(name) => name
    case None => ""
  }
}
