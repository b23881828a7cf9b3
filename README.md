# PurpleBook API — friend graph, likes, notifications and guards

A Dafny model of the request-handling core of the PurpleBook social-network
API. The collections are maps from id to record: users, posts and comments.
The notifications are a sequence in insertion order. Every handler's decision
ladder is a pure function from the old collections to an HTTP status and the
new collections. The `Store` class holds the collections as fields, and each
of its methods changes them the way the handler does.

The model covers these parts:

- **The friend graph** (`FriendRequests`, `FriendGraph`). This covers sending
  a friend request, marking requests as viewed, rejecting one, withdrawing one,
  accepting one and unfriending. It also covers the friend state one user sees
  of another, and the unviewed-request count on the home page.
  - The graph invariant `FriendGraph.Valid` says five things:
    - friendship is mutual;
    - requests come from existing users only;
    - nobody sends a request to themself;
    - nobody is their own friend;
    - a user holds at most one request per sender.
  - Every handler, sign-up included, preserves `Valid`.
- **The friend recommendation** (`Recommendation`). Candidates are scored by
  their shared friends, ordered by score and id, and returned a page at a time.
- **Posts and comments** (`PostController`, `CommentController`, `Likes`).
  This covers:
  - the feed, a user's posts and one post;
  - creating, editing and deleting posts and comments, with their validation
    ladders;
  - the conditional like and unlike updates with their 400/404 outcomes;
  - the comment listing, whose page can come out short when a comment's
    author is missing.
- **Notifications** (`NotificationHandler`, `NotificationController`). The
  handler computes the recipient, the self-suppression rule and the link list
  for each of the four events. The controller lists a user's notifications
  newest first and marks them all as viewed.
- **Record transforms** (`ManipulateModel`). The `likedByUser` flag replaces
  the `likes` list.
- **Middlewares** (`Authorization`, `RouteAuthorization`).
  - The post and comment guards answer 404, then 403, then continue; two of
    them let an admin through.
  - The two owner-flag middlewares write a flag on the request's user object.
- **Sign-up and log-in** (`AuthController`). This covers the field rules, the
  e-mail uniqueness check and the log-in ladder.

Ids are natural numbers ordered like ObjectIds. In the ranked listings (posts,
comments, notifications and recommendations) a tie in the sort key is broken by
ascending id. The friend-request list is sorted stably by its `viewed` flag.
Status codes are the numbers the handlers send. Library calls
are function parameters:

- password hashing and comparison;
- the e-mail format test;
- image detection;
- the content validators;
- the comment sort key chosen by the query.

## Model

| member | source | states |
|---|---|---|
| Common.Window | src/controllers/userController.ts:161-162 | `$limit: skip+limit` then `$skip: skip` keeps elements `skip ..` of the input, at most `limit` of them |
| Common.ConsecutivePages | src/controllers/userController.ts:161-162 | two consecutive windows concatenate to the window of their combined size |
| Common.RemoveAll | src/controllers/userController.ts:542-553 | `$pull` of an id: the id is gone, every other element stays, and the list is unchanged when the id was absent |
| Common.RemoveAllMultiset | src/controllers/userController.ts:542-553 | `$pull` drops exactly the occurrences of the id: every other element keeps its multiplicity |
| Common.RemoveAllSingle | src/controllers/userController.ts:542-553 | on one element, `$pull` drops the id itself and keeps any other |
| Common.RemoveAllAppend | src/controllers/userController.ts:542-553 | `$pull` works piece by piece: pulling from a concatenation is concatenating the pulled pieces, so the kept elements stay in order |
| Ranking.Top | src/controllers/userController.ts:160-162 | a sorted window: its length is the window formula over the keyed ids, its elements are keyed ids, and they are in descending key order with ties broken by ascending id |
| Ranking.TopComplete | src/controllers/userController.ts:160-162 | with a limit covering every id and no skip, every keyed id is listed |
| Ranking.TopPages | src/controllers/userController.ts:160-162 | consecutive sorted pages concatenate to the larger page |
| Ranking.LargerKeyFirst | src/controllers/userController.ts:160-162 | an id with a strictly larger key comes before one with a smaller key in the descending sort |
| FriendRequests.CountFromPositive | src/controllers/userController.ts:396-401 | a list holds a request from a sender exactly when the sender's count is positive |
| FriendRequests.CountFromAppend | src/controllers/userController.ts:404-409 | per-sender counts add up over concatenation |
| FriendRequests.Unviewed | src/controllers/userController.ts:36-44 | keeps exactly the unviewed entries |
| FriendRequests.Viewed | src/controllers/userController.ts:404-409 | keeps exactly the viewed entries |
| FriendRequests.FilterAppend | src/controllers/userController.ts:404-409 | both filters distribute over concatenation |
| FriendRequests.FilterCounts | src/controllers/userController.ts:404-409 | the unviewed and the viewed entries together account for every entry and every per-sender count |
| FriendRequests.SortByViewedSorts | src/controllers/userController.ts:404-409 | `$sort: {viewed: 1}` leaves the list unviewed-first, the same length, with the same per-sender counts |
| FriendRequests.PushUnviewedRequest | src/controllers/userController.ts:404-409 | a new unviewed request lands after the other unviewed entries and before every viewed one |
| FriendRequests.PushUnviewedEffect | src/controllers/userController.ts:404-409 | after the push the list is unviewed-first, the sender's count is one higher, every other count is unchanged, and one more entry is unviewed |
| FriendRequests.UnviewedIdempotent | src/controllers/userController.ts:404-409 | filtering the unviewed entries twice changes nothing |
| FriendRequests.ViewedHasNoUnviewed | src/controllers/userController.ts:404-409 | the viewed part holds no unviewed entry |
| FriendRequests.PullRequests | src/controllers/userController.ts:443 | `$pull` by sender keeps exactly the other senders' entries |
| FriendRequests.PullRequestsCounts | src/controllers/userController.ts:443 | after the pull the sender's count is 0 and the others are unchanged; the list is unchanged exactly when it held no request from the sender; the unviewed count does not grow |
| FriendRequests.MarkFirstViewed | src/controllers/userController.ts:426-431 | the positional `$set`: same length and senders, one fewer unviewed entry when there was one |
| FriendRequests.MarkFirstViewedOnlyFirst | src/controllers/userController.ts:426-431 | exactly the first unviewed entry is flipped to viewed |
| FriendRequests.SameSendersSameCounts | src/controllers/userController.ts:426-431 | lists with the same senders position by position have the same per-sender counts |
| FriendGraph.AddFriendRequest | src/controllers/userController.ts:374-420 | the status is 200, 400 or 404; anything but 200 writes nothing; the key set is kept and only the target's document can change |
| FriendGraph.SetFriendRequestsAsViewed | src/controllers/userController.ts:422-433 | 200 for the owner, else 403; the key set is kept; only the caller's document can change, and only for the owner |
| FriendGraph.DeleteFriendRequest | src/controllers/userController.ts:434-450 | 200 for the owner, else 403; the key set is kept; only the caller's document can change, and only for the owner |
| FriendGraph.DeleteSentFriendRequest | src/controllers/userController.ts:451-467 | 200, 403 or 404, with 403 exactly for a non-owner; anything but 200 writes nothing; only the target's document can change |
| FriendGraph.AcceptFriendRequest | src/controllers/userController.ts:468-505 | 200, 403 or 404, with 403 exactly for a non-owner; anything but 200 writes nothing; only the two users' documents can change |
| FriendGraph.DeleteFriend | src/controllers/userController.ts:530-561 | 200 for the owner, else 403; only the two users' documents can change, and no request list changes |
| FriendGraph.UnviewedRequestCount | src/controllers/userController.ts:36-44 | `friendRequestsCount`: 0 for an unknown user or one with every request viewed, and never more than the requests held; for a known user, exactly the number of requests held minus the viewed ones |
| FriendGraph.UnviewedRequestCountZero | src/controllers/userController.ts:36-44 | for a known user the count is 0 exactly when every request held has been viewed, so one unviewed request gives a positive count |
| FriendGraph.GetFriendState | src/controllers/userController.ts:563-578 | FRIEND iff the friend lists say so; else FRIEND_REQUEST_RECEIVED iff the user holds a request from the other; else FRIEND_REQUEST_SENT iff the other holds one from the user; else NOT_FRIEND |
| FriendGraph.AddFriendRequestOutcomes | src/controllers/userController.ts:374-420 | the rejection ladder (self 400, already a friend 400, missing target 404, already requested 400), with 200 exactly when every check passes; a rejection writes nothing |
| FriendGraph.AddFriendRequestEffect | src/controllers/userController.ts:396-411 | a success puts one unviewed entry from the sender between the target's unviewed and viewed entries; other senders' counts, the friend lists and all other users are unchanged; the target's unviewed count rises by one |
| FriendGraph.SecondRequestRejected | src/controllers/userController.ts:396-417 | repeating a successful request answers 400 and writes nothing |
| FriendGraph.RequestVisibleToTarget | src/controllers/userController.ts:563-578 | after a successful request the target sees FRIEND_REQUEST_RECEIVED from the sender |
| FriendGraph.SetViewedEffect | src/controllers/userController.ts:422-433 | marking as viewed answers 200, lowers the unviewed count by one unless it was 0, and keeps every sender's count and the friend list; the key set and every other user are unchanged |
| FriendGraph.SetViewedBreaksOrder | src/controllers/userController.ts:426-431 | with two unviewed requests, marking the first leaves the list out of unviewed-first order |
| FriendGraph.DeleteFriendRequestEffect | src/controllers/userController.ts:434-450 | always 200 for the owner; the caller's list becomes the `$pull` of the sender's requests, so none remains and every other sender's request is kept; the friend list, the key set and every other user are unchanged |
| FriendGraph.DeleteSentFriendRequestEffect | src/controllers/userController.ts:451-467 | 200 or 404 for the owner, 404 and no write exactly when the target held no request from the caller; after a 200 the target's list is the `$pull` of the caller's requests, other senders' counts and its friend list are kept; the key set and every other user are unchanged |
| FriendGraph.OwnerOnly | src/controllers/userController.ts:423-425 | every owner-only friend handler answers 403 to a non-owner and writes nothing |
| FriendGraph.AcceptNotFound | src/controllers/userController.ts:472-484 | accepting answers 404, and writes nothing, exactly when the caller holds no request from the other user; otherwise 200 |
| FriendGraph.AcceptEffect | src/controllers/userController.ts:472-501 | a success pulls the other user's requests and appends each id to the other's friend list; no one else changes |
| FriendGraph.AcceptMakesFriends | src/controllers/userController.ts:468-505 | after an accept both users see FRIEND |
| FriendGraph.DeleteFriendEffect | src/controllers/userController.ts:530-561 | always 200 for the owner; each friend list becomes the `$pull` of the other id, so neither remains and every other friend is kept in order; other users and all requests are unchanged |
| FriendGraph.PullFriendRelation | src/controllers/userController.ts:542-553 | one `$pull` on a friend list removes exactly that one pair from the friend relation and leaves the requests alone |
| FriendGraph.UnfriendedState | src/controllers/userController.ts:563-578 | after unfriending with no pending request, both users see NOT_FRIEND |
| FriendGraph.SetRequestsValid | src/controllers/userController.ts:396-411 | replacing a user's request list with one that names other existing users, once each, keeps the invariant |
| FriendGraph.AddFriendRequestValid | src/controllers/userController.ts:374-420 | `addFriendRequest` preserves the graph invariant |
| FriendGraph.SetFriendRequestsAsViewedValid | src/controllers/userController.ts:422-433 | `setFriendRequestsAsViewed` preserves the graph invariant |
| FriendGraph.PullRequestsValid | src/controllers/userController.ts:443 | pulling one sender's requests preserves the graph invariant |
| FriendGraph.DeleteFriendRequestValid | src/controllers/userController.ts:434-450 | `deleteFriendRequest` preserves the graph invariant |
| FriendGraph.DeleteSentFriendRequestValid | src/controllers/userController.ts:451-467 | `deleteSentFriendRequest` preserves the graph invariant |
| FriendGraph.AcceptValid | src/controllers/userController.ts:468-505 | `acceptFriendRequest` preserves the graph invariant, including mutual friendship |
| FriendGraph.BefriendValid | src/controllers/userController.ts:485-502 | pushing each of two distinct users onto the other's friend list keeps the graph invariant |
| FriendGraph.AddUserValid | src/controllers/authController.ts:134-145 | adding a new user with no friends and no requests keeps the graph invariant |
| FriendGraph.DeleteFriendValid | src/controllers/userController.ts:530-561 | `deleteFriend` preserves the graph invariant, including mutual friendship |
| FriendGraph.CrossedRequestsDuplicateFriends | src/controllers/userController.ts:485-501 | two crossed requests, both accepted, leave each id twice in the other's friend list (append, not set-add) |
| Recommendation.OccurrencesNoDup | src/controllers/userController.ts:302-347 | in a list without repeats an id occurs once or not at all |
| Recommendation.PairCountIsSharedFriends | src/controllers/userController.ts:302-347 | for friend lists without repeats, the pair count of the two `$unwind`s is the number of shared friends |
| Recommendation.RepeatedFriendCountsTwice | src/controllers/userController.ts:302-347 | a friend listed twice is counted twice |
| Recommendation.Scores | src/controllers/userController.ts:273-301 | the candidates are exactly the users other than the subject whose friend list lacks the subject, each scored by its pair count |
| Recommendation.Page | src/controllers/userController.ts:348-350 | every id on a page is a candidate |
| Recommendation.DescribeAll | src/controllers/userController.ts:352-359 | one description per id, in order |
| Recommendation.GetFriendRecommendation | src/controllers/userController.ts:256-362 | 200 for the owner, else 403 with nothing; at most `limit` entries, none for an unknown subject, and each one a candidate |
| Recommendation.RecommendationSound | src/controllers/userController.ts:256-362 | for the owner: 200 and a page of the windowed length; each entry is a candidate with its mutual-friend count, its names and the viewer's friend state |
| Recommendation.RecommendationOrdered | src/controllers/userController.ts:348 | entries are in descending mutual-friend order, ties by ascending id |
| Recommendation.RecommendationComplete | src/controllers/userController.ts:348-350 | with no skip and a limit covering every user, every candidate is listed |
| Recommendation.RecommendationExcludesFriends | src/controllers/userController.ts:273-301 | with mutual friendship, no entry is the subject or a friend of the subject |
| Recommendation.CandidateNotFriend | src/controllers/userController.ts:273-301 | with mutual friendship, a candidate is not on the subject's friend list either |
| Recommendation.MoreMutualFriendsFirst | src/controllers/userController.ts:348 | a candidate with more mutual friends is ranked before one with fewer |
| Recommendation.DescribeAllAppend | src/controllers/userController.ts:352-359 | describing two lists and concatenating is describing the concatenation |
| Recommendation.RecommendationPages | src/controllers/userController.ts:349-350 | consecutive pages concatenate to the larger page |
| Recommendation.RecommendationForbidden | src/controllers/userController.ts:257 | a non-owner gets 403 and nothing else |
| NotificationHandler.NewNotification | src/models/Notification.ts:8 | a new notification is unviewed, with the given recipient and links |
| NotificationHandler.PostLiked | src/utils/notificationHandler.ts:6-28 | throws exactly when the post or the liker is missing; a created notification goes, unviewed, to the post's author, who is not the liker |
| NotificationHandler.CommentLiked | src/utils/notificationHandler.ts:29-56 | throws exactly when a document it reads is missing; a created notification goes, unviewed, to the comment's author, who is not the liker |
| NotificationHandler.PostCommentedOn | src/utils/notificationHandler.ts:57-78 | throws exactly when a document it reads is missing; a created notification goes, unviewed, to the post's author, who is not the commenter |
| NotificationHandler.FriendRequestAccepted | src/utils/notificationHandler.ts:79-96 | throws exactly when the accepting user is missing; never suppressed; a created notification goes, unviewed, to the request's sender |
| NotificationHandler.PostLikedRule | src/utils/notificationHandler.ts:6-28 | suppressed exactly when the liker is the author; otherwise one unviewed notification to the post's author, with links `[post, liker]` |
| NotificationHandler.CommentLikedRule | src/utils/notificationHandler.ts:29-56 | suppressed exactly when the liker wrote the comment; otherwise one notification to the comment's author, with links `[comment, post, liker]` |
| NotificationHandler.CommentLikedIgnoresPostAuthor | src/utils/notificationHandler.ts:45-55 | the post's author liking someone else's comment still notifies the comment's author |
| NotificationHandler.PostCommentedOnRule | src/utils/notificationHandler.ts:57-78 | suppressed exactly when the commenter is the post's author; otherwise one notification to the post's author, with the three links `[comment, post, commenter]` |
| NotificationHandler.FriendRequestAcceptedRule | src/utils/notificationHandler.ts:79-96 | always one unviewed notification to the request's sender, with the single link to the accepting user and no self-check |
| NotificationHandler.NoSelfNotification | src/utils/notificationHandler.ts:18-27 | no like or comment notification is addressed to the user who caused it |
| NotificationHandler.ThrowsOnlyOnMissingDocuments | src/utils/notificationHandler.ts:6-96 | each handler fails exactly when one of the documents it reads is missing |
| NotificationController.CreatedAtOf | src/controllers/notificationController.ts:5-11 | keys exactly the caller's notifications |
| NotificationController.GetNotifications | src/controllers/notificationController.ts:5-11 | the listing is the caller's notifications in ranked order |
| NotificationController.GetNotificationsOrdered | src/controllers/notificationController.ts:5-11 | only the caller's notifications, newest first |
| NotificationController.GetNotificationsComplete | src/controllers/notificationController.ts:5-11 | every notification of the caller is listed, and there are as many entries as the caller has notifications |
| NotificationController.SetNotificationsAsViewed | src/controllers/notificationController.ts:12-15 | every notification of the caller becomes viewed; every other one is unchanged |
| NotificationController.SetViewedOthersUnchanged | src/controllers/notificationController.ts:12-15 | other users' notifications are unchanged, and only `viewed` changes for any of them |
| NotificationController.SetViewedIdempotent | src/controllers/notificationController.ts:12-15 | marking twice is marking once |
| NotificationController.SetViewedClearsCount | src/controllers/notificationController.ts:12-15 | afterwards the caller's unviewed count is 0 |
| NotificationController.SetViewedKeepsOtherCounts | src/controllers/notificationController.ts:12-15 | every other user's unviewed count is unchanged |
| NotificationController.UnviewedCount | src/controllers/userController.ts:45-53 | `notificationsCount` never exceeds the number of notifications |
| NotificationController.UnviewedCountZero | src/controllers/userController.ts:45-53 | the count is 0 exactly when every notification of the user is viewed |
| NotificationController.UnviewedCountAppend | src/controllers/userController.ts:45-53 | appending a notification raises only its unviewed recipient's count, by one |
| Likes.AddLike | src/controllers/postController.ts:172-189 | 200, 400 or 404, with a result exactly for an existing document; anything but 200 writes nothing; a 200 adds the caller, who had not liked it, once to the likes |
| Likes.Unlike | src/controllers/postController.ts:214-228 | 200 or 404, with a result exactly for an existing document; a 404 writes nothing; a 200 removes the caller, who had liked it, and shortens the likes |
| Likes.AddLikeOutcomes | src/controllers/postController.ts:172-189 | 200 exactly for an existing document the caller had not liked, with the caller appended; else 400 for an existing document, 404 for none, and no write |
| Likes.AddLikeKeepsNoDup | src/controllers/postController.ts:173-180 | a like never creates a duplicate |
| Likes.SecondLikeRejected | src/controllers/postController.ts:172-189 | a second like answers 400 and leaves one like |
| Likes.UnlikeOutcomes | src/controllers/postController.ts:214-228 | 200 exactly when the caller had liked an existing document; the caller is then gone and everyone else kept; otherwise 404 and no write; never 400 |
| Likes.LikeThenUnlike | src/controllers/postController.ts:214-228 | liking then unliking restores the likes |
| Likes.RemoveAppendAbsent | src/controllers/postController.ts:214-228 | pulling a freshly appended id restores the list |
| PostController.GetFeed | src/controllers/postController.ts:13-71 | at most `limit` entries |
| PostController.FeedAuthors | src/controllers/postController.ts:17-21 | the feed's authors are exactly the viewer and the viewer's friends |
| PostController.GetPosts | src/controllers/userController.ts:153-192 | at most `limit` entries |
| PostController.GetPost | src/controllers/postController.ts:114-152 | 200 with a post exactly when the post exists, else 404 with none |
| PostController.AddPost | src/controllers/postController.ts:73-113 | 201 or 400; a 400 writes nothing; a 201 adds exactly the new id, as a post by the caller |
| PostController.EditPost | src/controllers/postController.ts:153-166 | 200 exactly when the content passes validation; the key set and every other post are unchanged |
| PostController.DeletePost | src/controllers/postController.ts:167-170 | 200; the addressed post is gone and every other post is unchanged |
| PostController.LikePost | src/controllers/postController.ts:172-189 | 200, 400 or 404; anything but 200 writes nothing; the key set and every other post are unchanged |
| PostController.UnlikePost | src/controllers/postController.ts:214-228 | 200 or 404; a 404 writes nothing; the key set and every other post are unchanged |
| PostController.ByAuthors | src/controllers/postController.ts:22-30 | keys exactly the posts of the given authors by creation time |
| PostController.Listing | src/controllers/postController.ts:22-30 | the listing has the sorted window's length |
| PostController.ListingSound | src/controllers/postController.ts:47-63 | each entry is a post by one of the authors, with its content, `likedByUser` iff the viewer liked it, `likesCount` the number of likes, and its comment count |
| PostController.ListingAuthors | src/controllers/postController.ts:47-63 | every listed entry is a stored post whose author is one of the requested authors |
| PostController.ListingOrdered | src/controllers/postController.ts:22-30 | newest first, ties by ascending id |
| PostController.ListingComplete | src/controllers/postController.ts:22-30 | with no skip and a limit covering every post, every post of the authors is listed |
| PostController.ListingPages | src/controllers/postController.ts:22-30 | consecutive pages concatenate to the larger page |
| PostController.FeedAuthorsOnly | src/controllers/postController.ts:13-71 | the feed holds only posts by the viewer or the viewer's friends |
| PostController.GetPostsAuthorOnly | src/controllers/userController.ts:153-192 | a user's post listing holds only that user's posts |
| PostController.GetPostOutcome | src/controllers/postController.ts:114-152 | 404 exactly for a missing post; otherwise the post with `likedByUser` and `likesCount` |
| PostController.AddPostOutcome | src/controllers/postController.ts:73-113 | 400 exactly on a content error, a non-image file, or empty content without an image, with no write; otherwise 201 and one new post by the caller with no likes |
| PostController.ImagePostMayBeEmpty | src/controllers/postController.ts:81-102 | an image post with empty content is accepted |
| PostController.EditPostOutcome | src/controllers/postController.ts:153-166 | 400 exactly on a validation error; otherwise only the addressed post's content changes |
| PostController.DeletePostOutcome | src/controllers/postController.ts:167-170 | always 200; only the addressed post is removed |
| PostController.LikePostOutcome | src/controllers/postController.ts:172-189 | the like ladder on posts: 200 with the caller appended, 400, or 404, and no write unless 200 |
| PostController.UnlikePostOutcome | src/controllers/postController.ts:214-228 | the unlike ladder on posts: 200 with the caller pulled, else 404 and no write |
| PostController.LikeUnlikePostRoundTrip | src/controllers/postController.ts:214-228 | unliking after a successful like restores the posts |
| CommentController.AddComment | src/controllers/commentController.ts:12-34 | 201, 400 or 404; anything but 201 writes nothing; a 201 adds exactly the new id, as a comment by the caller on that post |
| CommentController.GetAllComments | src/controllers/commentController.ts:35-85 | at most `limit` entries |
| CommentController.GetComment | src/controllers/commentController.ts:86-123 | 200 or 404, with a comment exactly on 200 |
| CommentController.EditComment | src/controllers/commentController.ts:124-138 | 200 exactly when the content passes validation; the key set and every other comment are unchanged |
| CommentController.DeleteComment | src/controllers/commentController.ts:139-143 | 200 or 404; the addressed comment is gone and every other comment is unchanged |
| CommentController.LikeComment | src/controllers/commentController.ts:145-165 | 200, 400 or 404; anything but 200 writes nothing; the key set and every other comment are unchanged |
| CommentController.UnlikeComment | src/controllers/commentController.ts:190-204 | 200 or 404; a 404 writes nothing; the key set and every other comment are unchanged |
| CommentController.AddCommentOutcome | src/controllers/commentController.ts:12-34 | 400 for invalid content before the 404 for a missing post; otherwise 201 and one new comment by the caller on that post with no likes |
| CommentController.OfPost | src/controllers/commentController.ts:44-54 | keys exactly the comments of the post by the sort key |
| CommentController.WithKnownAuthor | src/controllers/commentController.ts:63 | the author `$unwind` keeps only listed comments whose author exists, and never lengthens the list |
| CommentController.WithKnownAuthorKeeps | src/controllers/commentController.ts:63 | a listed comment whose author exists survives the `$unwind` |
| CommentController.PageIds | src/controllers/commentController.ts:44-54 | the windowed ids are comments of the post |
| CommentController.GetAllCommentsSound | src/controllers/commentController.ts:35-85 | at most `limit` entries, each a comment of the post with a known author, its content, `likedByUser` and `likesCount` |
| CommentController.GetAllCommentsOrdered | src/controllers/commentController.ts:52-54 | entries in descending sort-key order, ties by ascending id |
| CommentController.PageIdsOrdered | src/controllers/commentController.ts:52-54 | the windowed ids are in sort order |
| CommentController.WithKnownAuthorOrder | src/controllers/commentController.ts:63 | dropping orphans keeps a ranked list ranked (`Ranking.RankedBy`) |
| CommentController.WithKnownAuthorAppend | src/controllers/commentController.ts:63 | dropping orphans distributes over concatenation |
| CommentController.GetAllCommentsPages | src/controllers/commentController.ts:52-63 | consecutive pages concatenate to the larger page |
| CommentController.GetAllCommentsComplete | src/controllers/commentController.ts:35-85 | with no skip and a limit covering every comment, every comment of the post with a known author is listed |
| CommentController.OrphanShortensPage | src/controllers/commentController.ts:52-63 | a comment whose author is missing takes a place in the window and is then dropped, so the page comes out short |
| CommentController.GetCommentOutcome | src/controllers/commentController.ts:86-123 | 404 exactly when the comment or its author is missing; otherwise the comment with `likedByUser` and `likesCount` |
| CommentController.EditCommentOutcome | src/controllers/commentController.ts:124-138 | 400 exactly on a validation error; otherwise only the addressed comment's content changes |
| CommentController.DeleteCommentOutcome | src/controllers/commentController.ts:139-143 | 404 exactly when nothing was deleted, otherwise 200; only that comment is removed |
| CommentController.LikeCommentOutcome | src/controllers/commentController.ts:145-165 | the like ladder on comments: 200 with the caller appended, 400, or 404, and no write unless 200 |
| CommentController.SecondCommentLikeRejected | src/controllers/commentController.ts:145-165 | a second like answers 400 and leaves one like |
| CommentController.UnlikeCommentOutcome | src/controllers/commentController.ts:190-204 | the unlike ladder on comments: 200 with the caller pulled, else 404 and no write |
| ManipulateModel.AddLikedByUserField | src/utils/manipulateModel.ts:3-11 | the result has the input's fields plus `likedByUser` |
| ManipulateModel.RemoveLikesField | src/utils/manipulateModel.ts:12-15 | the result has the input's fields minus `likes` |
| ManipulateModel.LikedByUserIffLiked | src/utils/manipulateModel.ts:3-11 | the flag is true exactly when some like equals the user |
| ManipulateModel.ExistingFlagOverrides | src/utils/manipulateModel.ts:3-11 | an input that already has `likedByUser` is returned unchanged |
| ManipulateModel.AddKeepsFields | src/utils/manipulateModel.ts:3-11 | no existing field changes |
| ManipulateModel.RemoveKeepsFields | src/utils/manipulateModel.ts:12-15 | `likes` is gone and every other field is kept |
| ManipulateModel.AddLikedByUserFieldAndRemoveLikesField | src/utils/manipulateModel.ts:16-22 | the result's fields are the input's, minus `likes`, plus `likedByUser` |
| ManipulateModel.ComposedShape | src/utils/manipulateModel.ts:16-22 | the composed result has `likedByUser` and no `likes`, and the other fields are unchanged |
| ManipulateModel.ComposedAgreesWithQueries | src/controllers/postController.ts:47-63 | the composed transform gives the projection the listing queries compute |
| Authorization.AuthorizePost | src/utils/authorizePost.ts:4-19 | 404, 403 or next; next only for an existing post by the requester |
| Authorization.PostFindAndAuthorize | src/utils/postFindAndAuthorize.ts:4-14 | 404, 403 or next; next only for an existing post, and only when the requester is its author or an admin |
| Authorization.AuthorizeComment | src/utils/authorizeComment.ts:4-14 | 404, 403 or next; next only for an existing comment by the requester |
| Authorization.CommentFindAndAuthorize | src/utils/commentFindAndAuthorize.ts:4-14 | 404, 403 or next; next only for an existing comment, and only when the requester is its author or an admin |
| Authorization.AuthorizePostDecision | src/utils/authorizePost.ts:4-19 | 404 exactly for a missing post, 403 exactly for another author's post, otherwise next |
| Authorization.PostFindAndAuthorizeDecision | src/utils/postFindAndAuthorize.ts:4-14 | 404 exactly for a missing post, 403 exactly for a requester who is neither author nor admin, otherwise next |
| Authorization.AuthorizeCommentDecision | src/utils/authorizeComment.ts:4-14 | 404 exactly for a missing comment, 403 exactly for another author's comment, otherwise next |
| Authorization.CommentFindAndAuthorizeDecision | src/utils/commentFindAndAuthorize.ts:4-14 | 404 exactly for a missing comment, 403 exactly for a requester who is neither author nor admin, otherwise next |
| Authorization.AdminBypassOnlyInFindVariants | src/utils/authorizePost.ts:12-16 | the plain guards refuse an admin who is not the author, whom the admin variants let through; for non-admins the variants agree |
| Authorization.PlainImpliesFind | src/utils/postFindAndAuthorize.ts:9-13 | whatever the plain guard lets through, the admin variant lets through |
| RouteAuthorization.RequestUser.constructor | src/strategies/jwtStrategy.ts:12-17 | a loaded request user has neither owner flag set |
| RouteAuthorization.RequestUser.UserRouteAuthorize | src/utils/userRouteAuthorize.ts:3-7 | the flag becomes exactly "the route's user id is the caller", whatever it was |
| RouteAuthorization.RequestUser.AuthorizeUserRoute | src/utils/authorizeUserRoute.ts:3-10 | `isAuthorized` is set when the route's `id` is the caller and otherwise kept; it is never cleared |
| RouteAuthorization.OlderMiddlewareUnderUserIdMount | src/utils/authorizeUserRoute.ts:3-10 | under a `:userId` mount the older middleware grants neither flag |
| RouteAuthorization.UserRouteAuthorizeTwice | src/utils/userRouteAuthorize.ts:3-7 | running the middleware twice gives the same flag as once |
| AuthController.TrimStart | src/controllers/authController.ts:68-87 | a suffix of the input that does not start with white space, with only white space cut off |
| AuthController.TrimEnd | src/controllers/authController.ts:68-87 | a prefix of the input that does not end with white space, with only white space cut off |
| AuthController.Trim | src/controllers/authController.ts:68-87 | the trimmed value neither starts nor ends with white space |
| AuthController.TrimPadded | src/controllers/authController.ts:68-87 | the trimmed value is a slice of the input with only white space cut off either side |
| AuthController.TrimIdempotent | src/controllers/authController.ts:68-87 | trimming twice is trimming once |
| AuthController.SignupErrors | src/controllers/authController.ts:68-100 | each field is reported exactly when its rule fails: names of 1 to 15 ASCII letters after trimming, a password of 8 to 32 characters after trimming, an e-mail-format address |
| AuthController.FindByEmail | src/controllers/authController.ts:23-25 | none exactly when the address is unused; otherwise the user with the smallest id among those with the address |
| AuthController.Signup | src/controllers/authController.ts:67-156 | a failure reports at least one field; a success adds exactly the new id and leaves every other user as it was |
| AuthController.SignupBranches | src/controllers/authController.ts:101-145 | the ladder branch by branch: validation errors fail with them; a used address fails on `email`; otherwise the users gain the created document |
| AuthController.SignupKeepsValid | src/controllers/authController.ts:134-145 | a successful sign-up keeps the graph invariant |
| AuthController.SignupOutcome | src/controllers/authController.ts:67-156 | success exactly when every field is valid and the address is free; then one new user with the trimmed names, the address, the hash of the trimmed password, no friends, no requests and no admin right; a failure writes nothing and answers 400 |
| AuthController.SignupEmailTaken | src/controllers/authController.ts:114-127 | a used address fails on `email` alone |
| AuthController.SecondSignupRefused | src/controllers/authController.ts:114-127 | signing up twice with one address: the second attempt fails on `email` |
| AuthController.SignupThenLogin | src/controllers/authController.ts:7-63 | after a sign-up, a log-in with a password the stored hash accepts answers 200 with the new id, and any other answers 400 |
| AuthController.Login | src/controllers/authController.ts:7-63 | 200, 400 or 404, with an id exactly on 200, and that id a user with the given address; for a well-formed, known address, 200 exactly when the found user's stored hash accepts the password |
| AuthController.LoginOutcome | src/controllers/authController.ts:7-63 | 400 on a validation error; 404 exactly for an unknown address; 200 only with a user who has the address and whose hash accepts the password; for a well-formed, known address, 200 with the found user's id exactly when that user's hash accepts the password, and otherwise 400 |
| Store.Emitted | src/utils/notificationHandler.ts:19 | a created notification is appended once, a suppressed one not at all |
| Store.SignupDecide | src/controllers/authController.ts:101-145 | the sign-up decision: its status is the ladder's, and it creates a document exactly on success, one with no friends and no requests that the ladder adds under the new id |
| Store.Store.Signup | src/controllers/authController.ts:101-145 | the users become those of `AuthController.Signup`, with its status; nothing else changes; the invariant is kept |
| Store.Store.AddFriendRequest | src/controllers/userController.ts:374-420 | the users become `FriendGraph.AddFriendRequest` of the old users, with its status; nothing else changes; the invariant is kept |
| Store.Store.SetFriendRequestsAsViewed | src/controllers/userController.ts:422-433 | the users become `FriendGraph.SetFriendRequestsAsViewed` under the request's owner flag; nothing else changes; the invariant is kept |
| Store.Store.DeleteFriendRequest | src/controllers/userController.ts:434-450 | the users become `FriendGraph.DeleteFriendRequest` under the owner flag; nothing else changes; the invariant is kept |
| Store.Store.DeleteSentFriendRequest | src/controllers/userController.ts:451-467 | the users become `FriendGraph.DeleteSentFriendRequest` under the owner flag; nothing else changes; the invariant is kept |
| Store.Store.AcceptFriendRequest | src/controllers/userController.ts:468-505 | the users become `FriendGraph.AcceptFriendRequest`; on 200 one unviewed notification to the sender is appended, raising their unviewed count by one; the invariant is kept |
| Store.Store.DeleteFriend | src/controllers/userController.ts:530-561 | the users become `FriendGraph.DeleteFriend` under the owner flag; nothing else changes; the invariant is kept |
| Store.Store.AddPost | src/controllers/postController.ts:73-113 | the posts become `PostController.AddPost` of the old posts, with its status; nothing else changes |
| Store.Store.EditPost | src/controllers/postController.ts:153-166 | the posts become `PostController.EditPost`; nothing else changes |
| Store.Store.DeletePost | src/controllers/postController.ts:167-170 | the posts become `PostController.DeletePost`; nothing else changes |
| Store.Store.LikePost | src/controllers/postController.ts:172-189 | the like is written, then `postLiked` appends its notification; the status is 200, 400 or 404; on 200 one notification is added unless the liker is the author |
| Store.Store.UnlikePost | src/controllers/postController.ts:214-228 | the posts become `PostController.UnlikePost`; the status is never 400 |
| Store.Store.AddComment | src/controllers/commentController.ts:12-34 | the comments become `CommentController.AddComment`; on 201 `postCommentedOn` appends its notification; the status is 201, 400 or 404 |
| Store.Store.EditComment | src/controllers/commentController.ts:124-138 | the comments become `CommentController.EditComment`; nothing else changes |
| Store.Store.DeleteComment | src/controllers/commentController.ts:139-143 | the comments become `CommentController.DeleteComment`; nothing else changes |
| Store.Store.LikeComment | src/controllers/commentController.ts:145-165 | the like is written, then `commentLiked` appends its notification; a 500 happens only after a real like, when the route's post or its author is missing |
| Store.Store.UnlikeComment | src/controllers/commentController.ts:190-204 | the comments become `CommentController.UnlikeComment`; the status is never 400 |
| Store.Store.SetNotificationsAsViewed | src/controllers/notificationController.ts:12-15 | a loop over the notifications leaves them as `NotificationController.SetNotificationsAsViewed`; the caller's unviewed count is 0 and the status 200 |

## Left out

- Query execution: aggregation pipelines, `populate`, `count` and update operators are stated by their meaning over maps and sequences. Each conditional `updateOne` is one atomic check-and-write.
- Transactions: the paired friend-list writes of `acceptFriendRequest` and `deleteFriend` are one step. The request pull that runs before the accept transaction is sequenced before it. Crashes and partial failure are not modelled.
- Concurrency: `Promise.all`, `async.map` and the un-awaited `Notification.create` are sequential here. The notification is appended after the handler's write.
- Notification handler failures: a handler that reads a missing document throws after the like or comment was written. The model answers 500 and appends nothing. How the web framework turns a rejected promise into a response is not modelled.
- Recommendation.GetFriendRecommendation: a subject with no friends gives every candidate a score of 0. The database's comparison of missing fields after `preserveNullAndEmptyArrays` (src/controllers/userController.ts:303-326) is not modelled, so the result for a friendless subject may differ.
- Ties in a sort key: in the ranked listings they are broken by ascending id. The database's order for equal keys is unspecified.
- FriendRequests.SortByViewed: the model chooses a stable order (unviewed entries, then viewed ones, each in its previous order) where the database's order for equal `viewed` flags is unspecified.
- Content strings, names in notification text, `imageMini` and the author projections are opaque values. Only their presence and the fields that decide outcomes are modelled.
- `parseQuery`, `processImage` and `validateForm` are not part of this model. The skip and limit are naturals. The image and content checks are boolean or error-list parameters. The comment sort key chosen by `parseQuery` is a key-function parameter, sorted in descending order.
- `bcrypt`, `jwt`, `passport` and the validator library's `isEmail` and `escape` are not part of this model. Hashing and comparison are function parameters, and `escape` is not applied. Sign-up escapes the names, the e-mail and the password (src/controllers/authController.ts:77, 87, 95, 100), and log-in escapes the e-mail and the password (src/controllers/authController.ts:12-13). Names matching `^[a-zA-Z]+$` are unchanged by it, and `escape` is injective and applied on both sides, so e-mail lookup and password comparison decide the same way without it.
- AuthController.Signup: the error paths of the hashing call, and the log-in comparison error (src/controllers/authController.ts:27-54), are not modelled.
- AuthController.Trim: trims ASCII white space only; the validator also trims Unicode spaces.
- `isEmailUsed` (src/utils/isEmailUsed.ts) is a single database call. It is modelled by `AuthController.EmailUsed` inside the sign-up ladder.
- `getFriendRequests`, `getFriends`, `getLikes` (whose paging applies to the document query, not to the likes array), `getUserHomeData`'s other fields, `deleteUser` and `setAdmin` are not modelled. They are population, projection or single-call handlers outside the friend graph and like rules.
- `Store.Store.LikeComment` takes the post id from the route. The route's post is not checked to be the comment's post, as in the source.
- Routers, `app.ts`, configuration, the authentication strategies and `checkRouteForAuth` are wiring. The request user is a `RouteAuthorization.RequestUser` whose id is an existing user.
- The schema files `src/models/User.ts` and `src/models/Post.ts` are stale. Record shapes follow the controllers.
