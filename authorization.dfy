/** The middlewares that guard editing and deleting a post or a comment: look
    the document up, answer 404 if it is missing, 403 if the requester may not
    change it, and otherwise hand over to the next handler. */
module Authorization {
  import opened Common
  import opened Records

  datatype Decision = Next | Respond(status: nat)

  /** The author of a looked-up document, `None` when there is none. */
  function PostAuthor(posts: map<Id, Post>, postId: Id): Option<Id> {
    if postId in posts then Some(posts[postId].authorId) else None
  }

  function CommentAuthor(comments: map<Id, Comment>, commentId: Id): Option<Id> {
    if commentId in comments then Some(comments[commentId].authorId) else None
  }

  /** `authorizePost`: 404, then 403 for anyone but the author. */
  function AuthorizePost(posts: map<Id, Post>, requesterId: Id, postId: Id): (d: Decision)
    ensures d in {Next, Respond(NOT_FOUND), Respond(FORBIDDEN)}
    ensures d == Next ==> postId in posts && posts[postId].authorId == requesterId
  {
    match PostAuthor(posts, postId)
    case None => Respond(NOT_FOUND)
    case Some(author) => if requesterId != author then Respond(FORBIDDEN) else Next
  }

  /** `postFindAndAuthorize`: 404, then 403 for anyone but the author or an admin. */
  function PostFindAndAuthorize(posts: map<Id, Post>, requesterId: Id, requesterIsAdmin: bool, postId: Id): (d: Decision)
    ensures d in {Next, Respond(NOT_FOUND), Respond(FORBIDDEN)}
    ensures d == Next ==> postId in posts && (posts[postId].authorId == requesterId || requesterIsAdmin)
  {
    match PostAuthor(posts, postId)
    case None => Respond(NOT_FOUND)
    case Some(author) => if requesterId != author && !requesterIsAdmin then Respond(FORBIDDEN) else Next
  }

  /** `authorizeComment`: 404, then 403 for anyone but the author. */
  function AuthorizeComment(comments: map<Id, Comment>, requesterId: Id, commentId: Id): (d: Decision)
    ensures d in {Next, Respond(NOT_FOUND), Respond(FORBIDDEN)}
    ensures d == Next ==> commentId in comments && comments[commentId].authorId == requesterId
  {
    match CommentAuthor(comments, commentId)
    case None => Respond(NOT_FOUND)
    case Some(author) => if requesterId != author then Respond(FORBIDDEN) else Next
  }

  /** `commentFindAndAuthorize`: 404, then 403 for anyone but the author or an admin. */
  function CommentFindAndAuthorize(comments: map<Id, Comment>, requesterId: Id, requesterIsAdmin: bool,
                                   commentId: Id): (d: Decision)
    ensures d in {Next, Respond(NOT_FOUND), Respond(FORBIDDEN)}
    ensures d == Next ==> commentId in comments && (comments[commentId].authorId == requesterId || requesterIsAdmin)
  {
    match CommentAuthor(comments, commentId)
    case None => Respond(NOT_FOUND)
    case Some(author) => if requesterId != author && !requesterIsAdmin then Respond(FORBIDDEN) else Next
  }

  // ---------------------------------------------------------------------------

  /** `authorizePost` answers 404 exactly for a missing post, whoever asks; 403
      exactly for an existing post of another author; otherwise it continues. */
  lemma AuthorizePostDecision(posts: map<Id, Post>, requesterId: Id, postId: Id)
    ensures var d := AuthorizePost(posts, requesterId, postId);
      && (d == Respond(NOT_FOUND) <==> postId !in posts)
      && (d == Respond(FORBIDDEN) <==> postId in posts && posts[postId].authorId != requesterId)
      && (d == Next <==> postId in posts && posts[postId].authorId == requesterId)
  {
  }

  /** `postFindAndAuthorize` forbids exactly a requester who is neither the
      author nor an admin, and only once the post is found. */
  lemma PostFindAndAuthorizeDecision(posts: map<Id, Post>, requesterId: Id, requesterIsAdmin: bool, postId: Id)
    ensures var d := PostFindAndAuthorize(posts, requesterId, requesterIsAdmin, postId);
      && (d == Respond(NOT_FOUND) <==> postId !in posts)
      && (d == Respond(FORBIDDEN) <==> postId in posts && posts[postId].authorId != requesterId && !requesterIsAdmin)
      && (d == Next <==> postId in posts && (posts[postId].authorId == requesterId || requesterIsAdmin))
  {
  }

  /** `authorizeComment` has the same ladder over comments. */
  lemma AuthorizeCommentDecision(comments: map<Id, Comment>, requesterId: Id, commentId: Id)
    ensures var d := AuthorizeComment(comments, requesterId, commentId);
      && (d == Respond(NOT_FOUND) <==> commentId !in comments)
      && (d == Respond(FORBIDDEN) <==> commentId in comments && comments[commentId].authorId != requesterId)
      && (d == Next <==> commentId in comments && comments[commentId].authorId == requesterId)
  {
  }

  /** `commentFindAndAuthorize` has the admin ladder over comments. */
  lemma CommentFindAndAuthorizeDecision(comments: map<Id, Comment>, requesterId: Id, requesterIsAdmin: bool,
                                        commentId: Id)
    ensures var d := CommentFindAndAuthorize(comments, requesterId, requesterIsAdmin, commentId);
      && (d == Respond(NOT_FOUND) <==> commentId !in comments)
      && (d == Respond(FORBIDDEN) <==> commentId in comments && comments[commentId].authorId != requesterId && !requesterIsAdmin)
      && (d == Next <==> commentId in comments && (comments[commentId].authorId == requesterId || requesterIsAdmin))
  {
  }

  /** An admin is not let through by the plain middlewares: they have no bypass,
      and they agree with the admin variants for everyone who is not an admin. */
  lemma AdminBypassOnlyInFindVariants(posts: map<Id, Post>, comments: map<Id, Comment>, requesterId: Id,
                                      postId: Id, commentId: Id)
    ensures PostFindAndAuthorize(posts, requesterId, false, postId) == AuthorizePost(posts, requesterId, postId)
    ensures CommentFindAndAuthorize(comments, requesterId, false, commentId) == AuthorizeComment(comments, requesterId, commentId)
    ensures postId in posts && posts[postId].authorId != requesterId ==>
      AuthorizePost(posts, requesterId, postId) == Respond(FORBIDDEN) &&
      PostFindAndAuthorize(posts, requesterId, true, postId) == Next
    ensures commentId in comments && comments[commentId].authorId != requesterId ==>
      AuthorizeComment(comments, requesterId, commentId) == Respond(FORBIDDEN) &&
      CommentFindAndAuthorize(comments, requesterId, true, commentId) == Next
  {
  }

  /** Whatever the plain middleware lets through, the admin variant lets through. */
  lemma PlainImpliesFind(posts: map<Id, Post>, comments: map<Id, Comment>, requesterId: Id, isAdmin: bool,
                         postId: Id, commentId: Id)
    ensures AuthorizePost(posts, requesterId, postId) == Next ==>
      PostFindAndAuthorize(posts, requesterId, isAdmin, postId) == Next
    ensures AuthorizeComment(comments, requesterId, commentId) == Next ==>
      CommentFindAndAuthorize(comments, requesterId, isAdmin, commentId) == Next
  {
  }
}
