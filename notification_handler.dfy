/** `notificationHandler`: for each of four events, who is notified, when the
    notification is suppressed, and the ordered links it carries. Each handler
    first looks up the documents it names; a lookup that finds nothing makes
    the handler dereference `null` and throw. */
module NotificationHandler {
  import opened Common
  import opened Records

  /** What one handler call does to the notification collection. */
  datatype Effect =
    | Throws               // a looked-up document was missing
    | Suppressed           // the actor would notify themself
    | Create(n: Notification)

  /** A freshly created notification: `viewed` takes its schema default, false. */
  function NewNotification(recipient: Id, links: seq<Link>, content: string, now: nat): (n: Notification)
    ensures !n.viewed && n.userId == recipient && n.links == links
  {
    Notification(recipient, links, content, false, now)
  }

  /** `postLiked`: the post's author hears of the like, unless they liked it themself. */
  function PostLiked(users: map<Id, User>, posts: map<Id, Post>, likerId: Id, postId: Id, now: nat): (e: Effect)
    ensures e == Throws <==> likerId !in users || postId !in posts
    ensures e.Create? ==> e.n.userId == posts[postId].authorId && e.n.userId != likerId && !e.n.viewed
  {
    if likerId !in users || postId !in posts then Throws
    else if likerId == posts[postId].authorId then Suppressed
    else Create(NewNotification(posts[postId].authorId,
      [Link(postId, PostRef), Link(likerId, UserRef)],
      FullName(users[likerId]) + " liked your post", now))
  }

  /** `commentLiked`: the comment's author hears of the like, unless they liked
      it themself. The post is looked up (with its author) only for the text. */
  function CommentLiked(users: map<Id, User>, posts: map<Id, Post>, comments: map<Id, Comment>,
                        likerId: Id, postId: Id, commentId: Id, now: nat): (e: Effect)
    ensures e == Throws <==>
      likerId !in users || commentId !in comments || postId !in posts || posts[postId].authorId !in users
    ensures e.Create? ==> e.n.userId == comments[commentId].authorId && e.n.userId != likerId && !e.n.viewed
  {
    if likerId !in users || commentId !in comments || postId !in posts || posts[postId].authorId !in users then Throws
    else if likerId == comments[commentId].authorId then Suppressed
    else Create(NewNotification(comments[commentId].authorId,
      [Link(commentId, CommentRef), Link(postId, PostRef), Link(likerId, UserRef)],
      FullName(users[likerId]) + " liked your comment on " + FullName(users[posts[postId].authorId]) + "'s posts", now))
  }

  /** `postCommentedOn`: the post's author hears of the comment, unless they wrote it. */
  function PostCommentedOn(users: map<Id, User>, posts: map<Id, Post>,
                           commenterId: Id, postId: Id, commentId: Id, now: nat): (e: Effect)
    ensures e == Throws <==> commenterId !in users || postId !in posts
    ensures e.Create? ==> e.n.userId == posts[postId].authorId && e.n.userId != commenterId && !e.n.viewed
  {
    if commenterId !in users || postId !in posts then Throws
    else if commenterId == posts[postId].authorId then Suppressed
    else Create(NewNotification(posts[postId].authorId,
      [Link(commentId, CommentRef), Link(postId, PostRef), Link(commenterId, UserRef)],
      FullName(users[commenterId]) + " commented on your post", now))
  }

  /** `friendRequestAccepted`: the sender of the request hears that the receiver accepted. */
  function FriendRequestAccepted(users: map<Id, User>, receiverId: Id, senderId: Id, now: nat): (e: Effect)
    ensures e == Throws <==> receiverId !in users
    ensures !e.Suppressed?
    ensures e.Create? ==> e.n.userId == senderId && !e.n.viewed
  {
    if receiverId !in users then Throws
    else Create(NewNotification(senderId, [Link(receiverId, UserRef)],
      FullName(users[receiverId]) + " accepted your friend request", now))
  }

  /** The user a notification is about: the target of its last link, always a user. */
  function Actor(n: Notification): Option<Id> {
    if n.links != [] && n.links[|n.links| - 1].ref == UserRef then Some(n.links[|n.links| - 1].linkId) else None
  }

  // ---------------------------------------------------------------------------

  /** A post like notifies the post's author, never the liker, and carries
      exactly the post link and then the liker's link. */
  lemma PostLikedRule(users: map<Id, User>, posts: map<Id, Post>, likerId: Id, postId: Id, now: nat)
    requires likerId in users && postId in posts
    ensures var e := PostLiked(users, posts, likerId, postId, now);
      && (e == Suppressed <==> likerId == posts[postId].authorId)
      && (e.Create? ==>
            && e.n.userId == posts[postId].authorId
            && e.n.userId != likerId
            && !e.n.viewed
            && e.n.links == [Link(postId, PostRef), Link(likerId, UserRef)]
            && Actor(e.n) == Some(likerId))
      && e != Throws
  {
  }

  /** A comment like notifies the comment's author, not the post's, never the
      liker, with the links comment, post, liker. */
  lemma CommentLikedRule(users: map<Id, User>, posts: map<Id, Post>, comments: map<Id, Comment>,
                         likerId: Id, postId: Id, commentId: Id, now: nat)
    requires likerId in users && commentId in comments && postId in posts && posts[postId].authorId in users
    ensures var e := CommentLiked(users, posts, comments, likerId, postId, commentId, now);
      && (e == Suppressed <==> likerId == comments[commentId].authorId)
      && (e.Create? ==>
            && e.n.userId == comments[commentId].authorId
            && e.n.userId != likerId
            && !e.n.viewed
            && e.n.links == [Link(commentId, CommentRef), Link(postId, PostRef), Link(likerId, UserRef)]
            && Actor(e.n) == Some(likerId))
      && e != Throws
  {
  }

  /** A post's author who likes someone else's comment on any post notifies that
      comment's author: the recipient does not depend on the post's author. */
  lemma CommentLikedIgnoresPostAuthor(users: map<Id, User>, posts: map<Id, Post>, comments: map<Id, Comment>,
                                      likerId: Id, postId: Id, commentId: Id, now: nat)
    requires likerId in users && commentId in comments && postId in posts && posts[postId].authorId in users
    requires likerId == posts[postId].authorId && likerId != comments[commentId].authorId
    ensures CommentLiked(users, posts, comments, likerId, postId, commentId, now).Create?
  {
  }

  /** A comment notifies the post's author, never the commenter, with three
      links: comment, post, commenter. */
  lemma PostCommentedOnRule(users: map<Id, User>, posts: map<Id, Post>,
                            commenterId: Id, postId: Id, commentId: Id, now: nat)
    requires commenterId in users && postId in posts
    ensures var e := PostCommentedOn(users, posts, commenterId, postId, commentId, now);
      && (e == Suppressed <==> commenterId == posts[postId].authorId)
      && (e.Create? ==>
            && e.n.userId == posts[postId].authorId
            && e.n.userId != commenterId
            && !e.n.viewed
            && |e.n.links| == 3
            && e.n.links == [Link(commentId, CommentRef), Link(postId, PostRef), Link(commenterId, UserRef)]
            && Actor(e.n) == Some(commenterId))
      && e != Throws
  {
  }

  /** An accepted request always notifies its sender, with the receiver as the
      single link; there is no self-check. */
  lemma FriendRequestAcceptedRule(users: map<Id, User>, receiverId: Id, senderId: Id, now: nat)
    requires receiverId in users
    ensures var e := FriendRequestAccepted(users, receiverId, senderId, now);
      && e.Create?
      && e.n.userId == senderId
      && !e.n.viewed
      && e.n.links == [Link(receiverId, UserRef)]
      && Actor(e.n) == Some(receiverId)
  {
  }

  /** The three like and comment events never notify the actor. */
  lemma NoSelfNotification(users: map<Id, User>, posts: map<Id, Post>, comments: map<Id, Comment>,
                           actorId: Id, postId: Id, commentId: Id, now: nat)
    ensures PostLiked(users, posts, actorId, postId, now).Create? ==>
      PostLiked(users, posts, actorId, postId, now).n.userId != actorId
    ensures CommentLiked(users, posts, comments, actorId, postId, commentId, now).Create? ==>
      CommentLiked(users, posts, comments, actorId, postId, commentId, now).n.userId != actorId
    ensures PostCommentedOn(users, posts, actorId, postId, commentId, now).Create? ==>
      PostCommentedOn(users, posts, actorId, postId, commentId, now).n.userId != actorId
  {
  }

  /** Each handler throws exactly when a document it looks up is missing. */
  lemma ThrowsOnlyOnMissingDocuments(users: map<Id, User>, posts: map<Id, Post>, comments: map<Id, Comment>,
                                     actorId: Id, otherId: Id, postId: Id, commentId: Id, now: nat)
    ensures PostLiked(users, posts, actorId, postId, now) == Throws <==> actorId !in users || postId !in posts
    ensures CommentLiked(users, posts, comments, actorId, postId, commentId, now) == Throws <==>
      actorId !in users || commentId !in comments || postId !in posts || posts[postId].authorId !in users
    ensures PostCommentedOn(users, posts, actorId, postId, commentId, now) == Throws <==>
      actorId !in users || postId !in posts
    ensures FriendRequestAccepted(users, actorId, otherId, now) == Throws <==> actorId !in users
  {
  }
}
