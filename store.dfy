/** The database as one object: the four collections the controllers read and
    write, and one method per state-changing handler. Each method performs the
    handler's writes in order, branching on what a conditional update matched
    or modified as the handler does, and is proved to end in the state and
    status of the corresponding transition function. */
module Store {
  import opened Common
  import opened Records
  import FriendGraph
  import FriendRequests
  import NotificationHandler
  import NotificationController
  import PostController
  import CommentController
  import RouteAuthorization
  import AuthController

  /** What a notification effect adds to the collection. */
  function Emitted(e: NotificationHandler.Effect): (r: seq<Notification>)
    ensures |r| == (if e.Create? then 1 else 0)
    ensures e.Create? ==> r == [e.n]
  {
    if e.Create? then [e.n] else []
  }

  /** The status a handler ends with after awaiting a notification handler: a
      handler that throws leaves the request failed. */
  function StatusAfter(e: NotificationHandler.Effect, success: nat): nat {
    if e.Throws? then SERVER_ERROR else success
  }

  /** The decisions of `signup`: 400 with the validation errors, 400 for a used
      address, otherwise 200 and the user document `User.create` stores. */
  method SignupDecide(users: FriendGraph.Users, firstName: Option<string>, lastName: Option<string>,
                      password: Option<string>, email: Option<string>, isEmail: string -> bool,
                      hash: string -> string, newId: Id)
    returns (status: nat, created: Option<User>)
    ensures var r := AuthController.Signup(users, firstName, lastName, password, email, isEmail, hash, newId);
      && status == AuthController.StatusOf(r)
      && (created.Some? <==> r.SignupSucceeded?)
      && (created.Some? ==>
            && r.users == users[newId := created.value]
            && created.value.friends == [] && created.value.friendRequests == [])
  {
    AuthController.SignupBranches(users, firstName, lastName, password, email, isEmail, hash, newId);
    var errors := AuthController.SignupErrors(firstName, lastName, password, email, isEmail);
    if errors != {} {
      return BAD_REQUEST, None;
    }
    var emailUsed := AuthController.EmailUsed(users, email.value);
    if emailUsed {
      return BAD_REQUEST, None;
    }
    var u := User(AuthController.Trim(firstName.value), AuthController.Trim(lastName.value), email.value,
                  hash(AuthController.Trim(password.value)), [], [], false);
    return OK, Some(u);
  }

  class Store {
    var users: FriendGraph.Users
    var posts: map<Id, Post>
    var comments: map<Id, Comment>
    var notifications: seq<Notification>

    /** The friend graph's invariant: symmetric friend lists, requests from
        existing users only, one per sender, none from oneself. */
    ghost predicate Valid()
      reads this
    {
      FriendGraph.Valid(users)
    }

    constructor()
      ensures users == map[] && posts == map[] && comments == map[] && notifications == []
      ensures Valid()
    {
      users := map[];
      posts := map[];
      comments := map[];
      notifications := [];
    }

    // ---- sign-up ----------------------------------------------------------

    /** `signup`: answers as the validators and the address check decide, and
        on success `User.create` stores the new user under the fresh `newId`. */
    method Signup(firstName: Option<string>, lastName: Option<string>, password: Option<string>,
                  email: Option<string>, isEmail: string -> bool, hash: string -> string, newId: Id)
      returns (status: nat)
      requires Valid() && newId !in users
      modifies this
      ensures var r := AuthController.Signup(old(users), firstName, lastName, password, email, isEmail, hash, newId);
        && status == AuthController.StatusOf(r)
        && users == (if r.SignupSucceeded? then r.users else old(users))
      ensures posts == old(posts) && comments == old(comments) && notifications == old(notifications)
      ensures Valid()
    {
      var created;
      status, created := SignupDecide(users, firstName, lastName, password, email, isEmail, hash, newId);
      if created.Some? {
        FriendGraph.AddUserValid(users, newId, created.value);
        users := users[newId := created.value];
      }
    }

    // ---- friend requests and friends --------------------------------------

    /** `addFriendRequest` from the authenticated `req` to `targetId`. */
    method AddFriendRequest(req: RouteAuthorization.RequestUser, targetId: Id) returns (status: nat)
      requires Valid() && req.id in users
      modifies this
      ensures var r := FriendGraph.AddFriendRequest(old(users), req.id, targetId);
        status == r.status && users == r.state
      ensures posts == old(posts) && comments == old(comments) && notifications == old(notifications)
      ensures Valid()
    {
      FriendGraph.AddFriendRequestValid(users, req.id, targetId);
      if req.id == targetId {
        return BAD_REQUEST;
      }
      var alreadyFriend := targetId in users[req.id].friends;
      var userExist := targetId in users;
      if alreadyFriend {
        return BAD_REQUEST;
      } else if !userExist {
        return NOT_FOUND;
      }
      // `updateOne` matches only a target without a request from the sender.
      var matched := !FriendRequests.HasRequestFrom(users[targetId].friendRequests, req.id);
      if matched {
        var reqs := FriendRequests.PushRequest(users[targetId].friendRequests, FriendRequest(req.id, false));
        users := users[targetId := users[targetId].(friendRequests := reqs)];
      }
      if !matched {
        return BAD_REQUEST;
      }
      return OK;
    }

    /** `setFriendRequestsAsViewed` on the route's user. */
    method SetFriendRequestsAsViewed(req: RouteAuthorization.RequestUser, userId: Id) returns (status: nat)
      requires Valid()
      modifies this
      ensures var r := FriendGraph.SetFriendRequestsAsViewed(old(users), req.userRouteAuthorized, userId);
        status == r.status && users == r.state
      ensures posts == old(posts) && comments == old(comments) && notifications == old(notifications)
      ensures Valid()
    {
      FriendGraph.SetFriendRequestsAsViewedValid(users, req.userRouteAuthorized, userId);
      if !req.userRouteAuthorized {
        return FORBIDDEN;
      }
      if userId in users {
        users := users[userId := users[userId].(friendRequests := FriendRequests.MarkFirstViewed(users[userId].friendRequests))];
      }
      return OK;
    }

    /** `deleteFriendRequest`: the route's user drops the requests from `senderId`. */
    method DeleteFriendRequest(req: RouteAuthorization.RequestUser, userId: Id, senderId: Id) returns (status: nat)
      requires Valid()
      modifies this
      ensures var r := FriendGraph.DeleteFriendRequest(old(users), req.userRouteAuthorized, userId, senderId);
        status == r.status && users == r.state
      ensures posts == old(posts) && comments == old(comments) && notifications == old(notifications)
      ensures Valid()
    {
      FriendGraph.DeleteFriendRequestValid(users, req.userRouteAuthorized, userId, senderId);
      if !req.userRouteAuthorized {
        return FORBIDDEN;
      }
      if userId in users {
        users := users[userId := users[userId].(friendRequests := FriendRequests.PullRequests(users[userId].friendRequests, senderId))];
      }
      return OK;
    }

    /** `deleteSentFriendRequest`: the route's user withdraws the request sent to `friendId`. */
    method DeleteSentFriendRequest(req: RouteAuthorization.RequestUser, userId: Id, friendId: Id) returns (status: nat)
      requires Valid()
      modifies this
      ensures var r := FriendGraph.DeleteSentFriendRequest(old(users), req.userRouteAuthorized, userId, friendId);
        status == r.status && users == r.state
      ensures posts == old(posts) && comments == old(comments) && notifications == old(notifications)
      ensures Valid()
    {
      FriendGraph.DeleteSentFriendRequestValid(users, req.userRouteAuthorized, userId, friendId);
      if !req.userRouteAuthorized {
        return FORBIDDEN;
      }
      // The `$pull` modifies the document exactly when it held such a request.
      var modified := FriendGraph.Received(users, friendId, userId);
      if modified {
        users := users[friendId := users[friendId].(friendRequests := FriendRequests.PullRequests(users[friendId].friendRequests, userId))];
      }
      if !modified {
        return NOT_FOUND;
      }
      return OK;
    }

    /** `acceptFriendRequest`: pull the request, make both users friends in one
        step, then notify the sender. */
    method AcceptFriendRequest(req: RouteAuthorization.RequestUser, friendId: Id, now: nat) returns (status: nat)
      requires Valid() && req.id in users
      modifies this
      ensures var r := FriendGraph.AcceptFriendRequest(old(users), req.userRouteAuthorized, req.id, friendId);
        && users == r.state
        && (r.status != OK ==> status == r.status && notifications == old(notifications))
        && (r.status == OK ==>
              var e := NotificationHandler.FriendRequestAccepted(r.state, req.id, friendId, now);
              status == StatusAfter(e, OK) && notifications == old(notifications) + Emitted(e))
      ensures status == OK ==>
        && |notifications| == |old(notifications)| + 1
        && notifications[|notifications| - 1].userId == friendId
        && NotificationController.UnviewedCount(notifications, friendId) ==
             NotificationController.UnviewedCount(old(notifications), friendId) + 1
      ensures posts == old(posts) && comments == old(comments)
      ensures Valid()
    {
      FriendGraph.AcceptValid(users, req.userRouteAuthorized, req.id, friendId);
      if !req.userRouteAuthorized {
        return FORBIDDEN;
      }
      var callerId := req.id;
      var graph := users;
      var modified := FriendGraph.Received(graph, callerId, friendId);
      if modified {
        graph := FriendGraph.SetRequests(graph, callerId, FriendRequests.PullRequests(graph[callerId].friendRequests, friendId));
      }
      if !modified {
        return NOT_FOUND;
      }
      graph := FriendGraph.PushFriend(graph, callerId, friendId);
      graph := FriendGraph.PushFriend(graph, friendId, callerId);
      users := graph;
      var e := NotificationHandler.FriendRequestAccepted(graph, callerId, friendId, now);
      NotificationHandler.FriendRequestAcceptedRule(graph, callerId, friendId, now);
      NotificationController.UnviewedCountAppend(notifications, e.n, friendId);
      notifications := notifications + Emitted(e);
      status := StatusAfter(e, OK);
    }

    /** `deleteFriend`: both users drop each other in one step. */
    method DeleteFriend(req: RouteAuthorization.RequestUser, friendId: Id) returns (status: nat)
      requires Valid()
      modifies this
      ensures var r := FriendGraph.DeleteFriend(old(users), req.userRouteAuthorized, req.id, friendId);
        status == r.status && users == r.state
      ensures posts == old(posts) && comments == old(comments) && notifications == old(notifications)
      ensures Valid()
    {
      FriendGraph.DeleteFriendValid(users, req.userRouteAuthorized, req.id, friendId);
      if !req.userRouteAuthorized {
        return FORBIDDEN;
      }
      users := FriendGraph.PullFriend(users, req.id, friendId);
      users := FriendGraph.PullFriend(users, friendId, req.id);
      return OK;
    }

    // ---- posts -------------------------------------------------------------

    /** `addPost`; `newId` is the id the database assigns. */
    method AddPost(req: RouteAuthorization.RequestUser, contentErrors: seq<string>, hasFile: bool, fileIsImage: bool,
                   content: string, newId: Id, now: nat) returns (status: nat)
      requires newId !in posts
      modifies this
      ensures var r := PostController.AddPost(old(posts), req.id, contentErrors, hasFile, fileIsImage, content, newId, now);
        status == r.status && posts == r.state
      ensures users == old(users) && comments == old(comments) && notifications == old(notifications)
    {
      var errors := PostController.AddPostErrors(contentErrors, hasFile, fileIsImage, content);
      if errors != [] {
        return BAD_REQUEST;
      }
      posts := posts[newId := Post(req.id, content, [], now)];
      return CREATED;
    }

    /** `editPost` (behind the ownership middleware). */
    method EditPost(contentValid: bool, postId: Id, content: string) returns (status: nat)
      modifies this
      ensures var r := PostController.EditPost(old(posts), contentValid, postId, content);
        status == r.status && posts == r.state
      ensures users == old(users) && comments == old(comments) && notifications == old(notifications)
    {
      if !contentValid {
        return BAD_REQUEST;
      }
      if postId in posts {
        posts := posts[postId := posts[postId].(content := content)];
      }
      return OK;
    }

    /** `deletePost`: the post goes, its comments stay. */
    method DeletePost(postId: Id) returns (status: nat)
      modifies this
      ensures var r := PostController.DeletePost(old(posts), postId);
        status == r.status && posts == r.state
      ensures users == old(users) && comments == old(comments) && notifications == old(notifications)
    {
      posts := posts - {postId};
      return OK;
    }

    /** `addLike` on a post, then `postLiked`. */
    method LikePost(req: RouteAuthorization.RequestUser, postId: Id, now: nat) returns (status: nat)
      requires req.id in users
      modifies this
      ensures var r := PostController.LikePost(old(posts), req.id, postId);
        && posts == r.state
        && (r.status != OK ==> status == r.status && notifications == old(notifications))
        && (r.status == OK ==>
              var e := NotificationHandler.PostLiked(users, r.state, req.id, postId, now);
              status == StatusAfter(e, OK) && notifications == old(notifications) + Emitted(e))
      ensures status == OK || status == BAD_REQUEST || status == NOT_FOUND
      ensures status == OK ==>
        && postId in old(posts)
        && |notifications| == |old(notifications)| + (if old(posts)[postId].authorId == req.id then 0 else 1)
      ensures users == old(users) && comments == old(comments)
    {
      PostController.LikePostOutcome(posts, req.id, postId);
      // `updateOne` with `likes: {$nin: [caller]}` and `$push`.
      var modified := postId in posts && req.id !in posts[postId].likes;
      if modified {
        posts := posts[postId := posts[postId].(likes := posts[postId].likes + [req.id])];
      }
      if !modified {
        var found := postId in posts;
        if found {
          return BAD_REQUEST;
        } else {
          return NOT_FOUND;
        }
      }
      var e := NotificationHandler.PostLiked(users, posts, req.id, postId, now);
      NotificationHandler.PostLikedRule(users, posts, req.id, postId, now);
      notifications := notifications + Emitted(e);
      status := StatusAfter(e, OK);
    }

    /** `unlike` on a post. The update matches only a post the caller likes, so
        the "matched but not modified" answer 400 is never given. */
    method UnlikePost(req: RouteAuthorization.RequestUser, postId: Id) returns (status: nat)
      modifies this
      ensures var r := PostController.UnlikePost(old(posts), req.id, postId);
        status == r.status && posts == r.state
      ensures status != BAD_REQUEST
      ensures users == old(users) && comments == old(comments) && notifications == old(notifications)
    {
      PostController.UnlikePostOutcome(posts, req.id, postId);
      var matchedCount := if postId in posts && req.id in posts[postId].likes then 1 else 0;
      var modifiedCount := 0;
      if matchedCount == 1 {
        posts := posts[postId := posts[postId].(likes := RemoveAll(posts[postId].likes, req.id))];
        modifiedCount := 1;
      }
      if modifiedCount == 0 {
        if matchedCount == 1 {
          return BAD_REQUEST;
        } else {
          return NOT_FOUND;
        }
      }
      return OK;
    }

    // ---- comments ----------------------------------------------------------

    /** `addComment`, then `postCommentedOn`. */
    method AddComment(req: RouteAuthorization.RequestUser, contentValid: bool, postId: Id, content: string,
                      newId: Id, now: nat) returns (status: nat)
      requires req.id in users && newId !in comments
      modifies this
      ensures var r := CommentController.AddComment(old(comments), posts, req.id, contentValid, postId, content, newId, now);
        && comments == r.state
        && (r.status != CREATED ==> status == r.status && notifications == old(notifications))
        && (r.status == CREATED ==>
              var e := NotificationHandler.PostCommentedOn(users, posts, req.id, postId, newId, now);
              status == StatusAfter(e, CREATED) && notifications == old(notifications) + Emitted(e))
      ensures status == CREATED || status == BAD_REQUEST || status == NOT_FOUND
      ensures users == old(users) && posts == old(posts)
    {
      if !contentValid {
        return BAD_REQUEST;
      }
      var postFound := postId in posts;
      if !postFound {
        return NOT_FOUND;
      }
      comments := comments[newId := Comment(req.id, postId, content, [], now)];
      var e := NotificationHandler.PostCommentedOn(users, posts, req.id, postId, newId, now);
      NotificationHandler.PostCommentedOnRule(users, posts, req.id, postId, newId, now);
      notifications := notifications + Emitted(e);
      status := StatusAfter(e, CREATED);
    }

    /** `editComment` (behind the ownership middleware). */
    method EditComment(contentValid: bool, commentId: Id, content: string) returns (status: nat)
      modifies this
      ensures var r := CommentController.EditComment(old(comments), contentValid, commentId, content);
        status == r.status && comments == r.state
      ensures users == old(users) && posts == old(posts) && notifications == old(notifications)
    {
      if !contentValid {
        return BAD_REQUEST;
      }
      if commentId in comments {
        comments := comments[commentId := comments[commentId].(content := content)];
      }
      return OK;
    }

    /** `deleteComment`: 404 when `deletedCount` is 0. */
    method DeleteComment(commentId: Id) returns (status: nat)
      modifies this
      ensures var r := CommentController.DeleteComment(old(comments), commentId);
        status == r.status && comments == r.state
      ensures users == old(users) && posts == old(posts) && notifications == old(notifications)
    {
      var deletedCount := if commentId in comments then 1 else 0;
      comments := comments - {commentId};
      if deletedCount == 0 {
        return NOT_FOUND;
      }
      return OK;
    }

    /** `addLike` on a comment, then `commentLiked` with the route's `postId`,
        which need not be the comment's post: when that post does not exist the
        like is stored and the notification handler throws. */
    method LikeComment(req: RouteAuthorization.RequestUser, postId: Id, commentId: Id, now: nat) returns (status: nat)
      requires req.id in users
      modifies this
      ensures var r := CommentController.LikeComment(old(comments), req.id, commentId);
        && comments == r.state
        && (r.status != OK ==> status == r.status && notifications == old(notifications))
        && (r.status == OK ==>
              var e := NotificationHandler.CommentLiked(users, posts, r.state, req.id, postId, commentId, now);
              status == StatusAfter(e, OK) && notifications == old(notifications) + Emitted(e))
      ensures status == SERVER_ERROR ==>
        commentId in old(comments) && req.id !in old(comments)[commentId].likes &&
        (postId !in posts || posts[postId].authorId !in users)
      ensures users == old(users) && posts == old(posts)
    {
      CommentController.LikeCommentOutcome(comments, req.id, commentId);
      var modified := commentId in comments && req.id !in comments[commentId].likes;
      if modified {
        comments := comments[commentId := comments[commentId].(likes := comments[commentId].likes + [req.id])];
      }
      if !modified {
        var commentFound := commentId in comments;
        if commentFound {
          return BAD_REQUEST;
        } else {
          return NOT_FOUND;
        }
      }
      var e := NotificationHandler.CommentLiked(users, posts, comments, req.id, postId, commentId, now);
      NotificationHandler.ThrowsOnlyOnMissingDocuments(users, posts, comments, req.id, req.id, postId, commentId, now);
      notifications := notifications + Emitted(e);
      status := StatusAfter(e, OK);
    }

    /** `unlike` on a comment; as for posts, 400 is never given. */
    method UnlikeComment(req: RouteAuthorization.RequestUser, commentId: Id) returns (status: nat)
      modifies this
      ensures var r := CommentController.UnlikeComment(old(comments), req.id, commentId);
        status == r.status && comments == r.state
      ensures status != BAD_REQUEST
      ensures users == old(users) && posts == old(posts) && notifications == old(notifications)
    {
      CommentController.UnlikeCommentOutcome(comments, req.id, commentId);
      var matchedCount := if commentId in comments && req.id in comments[commentId].likes then 1 else 0;
      var modifiedCount := 0;
      if matchedCount == 1 {
        comments := comments[commentId := comments[commentId].(likes := RemoveAll(comments[commentId].likes, req.id))];
        modifiedCount := 1;
      }
      if modifiedCount == 0 {
        if matchedCount == 1 {
          return BAD_REQUEST;
        } else {
          return NOT_FOUND;
        }
      }
      return OK;
    }

    // ---- notifications -----------------------------------------------------

    /** `setNotificationsAsViewed`: `updateMany` visits every notification and
        marks each unviewed one of the caller; always 200. */
    method SetNotificationsAsViewed(req: RouteAuthorization.RequestUser) returns (status: nat)
      modifies this
      ensures notifications == NotificationController.SetNotificationsAsViewed(old(notifications), req.id)
      ensures NotificationController.UnviewedCount(notifications, req.id) == 0
      ensures status == OK
      ensures users == old(users) && posts == old(posts) && comments == old(comments)
    {
      ghost var target := NotificationController.SetNotificationsAsViewed(notifications, req.id);
      var i := 0;
      while i < |notifications|
        invariant 0 <= i <= |notifications| == |target|
        invariant notifications[..i] == target[..i]
        invariant notifications[i..] == old(notifications)[i..]
        invariant users == old(users) && posts == old(posts) && comments == old(comments)
      {
        var n := notifications[i];
        assert n == old(notifications)[i];
        if n.userId == req.id && !n.viewed {
          notifications := notifications[i := n.(viewed := true)];
        }
        assert notifications[..i + 1] == notifications[..i] + [notifications[i]];
        assert target[..i + 1] == target[..i] + [target[i]];
        i := i + 1;
      }
      assert notifications == notifications[..i];
      assert target == target[..i];
      NotificationController.SetViewedClearsCount(old(notifications), req.id);
      return OK;
    }
  }
}
