/** `postController` (feed, single post, create, edit, delete, like, unlike) and
    the `getPosts` listing of `userController`, over the post collection. */
module PostController {
  import opened Common
  import opened Records
  import opened Ranking
  import Likes

  type Posts = map<Id, Post>

  /** What the queries project of a post for a viewer. */
  datatype PostView = PostView(
    id: Id,
    authorId: Id,
    content: string,
    likedByUser: bool,
    likesCount: nat,
    createdAt: nat)

  /** A listed post with its number of comments (the `$lookup` on comments). */
  datatype PostEntry = PostEntry(post: PostView, commentsCount: nat)

  function View(posts: Posts, viewerId: Id, id: Id): (v: PostView)
    requires id in posts
  {
    var p := posts[id];
    PostView(id, p.authorId, p.content, viewerId in p.likes, |p.likes|, p.createdAt)
  }

  function CommentsCount(comments: map<Id, Comment>, postId: Id): nat {
    |set c | c in comments && comments[c].postId == postId|
  }

  /** The posts whose author is in `authors`, keyed by creation time. */
  function ByAuthors(posts: Posts, authors: set<Id>): (keys: map<Id, nat>)
    ensures forall p :: p in keys <==> p in posts && posts[p].authorId in authors
    ensures forall p :: p in keys ==> keys[p] == posts[p].createdAt
  {
    map p | p in posts && posts[p].authorId in authors :: posts[p].createdAt
  }

  /** The page of `authors`' posts, newest first, each with its projection. */
  function Listing(posts: Posts, comments: map<Id, Comment>, viewerId: Id, authors: set<Id>,
                   skip: nat, limit: nat): (r: seq<PostEntry>)
    ensures |r| == |Top(ByAuthors(posts, authors), skip, limit)|
  {
    Entries(posts, comments, viewerId, Top(ByAuthors(posts, authors), skip, limit))
  }

  function Entry(posts: Posts, comments: map<Id, Comment>, viewerId: Id, id: Id): PostEntry
    requires id in posts
  {
    PostEntry(View(posts, viewerId, id), CommentsCount(comments, id))
  }

  /** The projection of each listed post, in order. */
  function Entries(posts: Posts, comments: map<Id, Comment>, viewerId: Id, ids: seq<Id>): (r: seq<PostEntry>)
    requires forall i :: 0 <= i < |ids| ==> ids[i] in posts
    ensures |r| == |ids|
    ensures forall i :: 0 <= i < |ids| ==> r[i] == Entry(posts, comments, viewerId, ids[i])
  {
    seq(|ids|, i requires 0 <= i < |ids| => Entry(posts, comments, viewerId, ids[i]))
  }

  /** The feed's authors: the viewer and the viewer's friends. */
  function FeedAuthors(users: map<Id, User>, viewerId: Id): (r: set<Id>)
    requires viewerId in users
    ensures forall a :: a in r <==> a == viewerId || a in users[viewerId].friends
  {
    {viewerId} + Elems(users[viewerId].friends)
  }

  /** `getFeed`. */
  function GetFeed(users: map<Id, User>, posts: Posts, comments: map<Id, Comment>, viewerId: Id,
                   skip: nat, limit: nat): (r: seq<PostEntry>)
    requires viewerId in users
    ensures |r| <= limit
  {
    Listing(posts, comments, viewerId, FeedAuthors(users, viewerId), skip, limit)
  }

  /** `getPosts` of `userController`: one user's posts. */
  function GetPosts(posts: Posts, comments: map<Id, Comment>, viewerId: Id, authorId: Id,
                    skip: nat, limit: nat): (r: seq<PostEntry>)
    ensures |r| <= limit
  {
    Listing(posts, comments, viewerId, {authorId}, skip, limit)
  }

  /** `getPost`: the projection, or 404. */
  function GetPost(posts: Posts, viewerId: Id, postId: Id): (r: Response<Option<PostView>>)
    ensures r.status == (if postId in posts then OK else NOT_FOUND)
    ensures r.state.Some? <==> postId in posts
  {
    if postId in posts then Response(OK, Some(View(posts, viewerId, postId))) else Response(NOT_FOUND, None)
  }

  /** The error list of `addPost`, by parameter: the content validator's errors,
      then a file that is not an image, then empty content without an image. */
  function AddPostErrors(contentErrors: seq<string>, hasFile: bool, fileIsImage: bool, content: string): seq<string> {
    contentErrors
    + (if hasFile && !fileIsImage then ["image"] else [])
    + (if !fileIsImage && |content| == 0 then ["content"] else [])
  }

  /** `addPost`: 400 with any error, else a new post by the caller with no likes, 201. */
  function AddPost(posts: Posts, callerId: Id, contentErrors: seq<string>, hasFile: bool, fileIsImage: bool,
                   content: string, newId: Id, now: nat): (r: Response<Posts>)
    ensures r.status in {CREATED, BAD_REQUEST}
    ensures r.status == BAD_REQUEST ==> r.state == posts
    ensures r.status == CREATED ==> r.state.Keys == posts.Keys + {newId} && r.state[newId].authorId == callerId
  {
    if AddPostErrors(contentErrors, hasFile, fileIsImage, content) != [] then Response(BAD_REQUEST, posts)
    else Response(CREATED, posts[newId := Post(callerId, content, [], now)])
  }

  /** `editPost`: 400 on a validation error, else the content is replaced (an
      unknown id updates nothing) and the answer is 200. */
  function EditPost(posts: Posts, contentValid: bool, postId: Id, content: string): (r: Response<Posts>)
    ensures r.status == if contentValid then OK else BAD_REQUEST
    ensures r.state.Keys == posts.Keys
    ensures forall p :: p in posts && p != postId ==> r.state[p] == posts[p]
  {
    if !contentValid then Response(BAD_REQUEST, posts)
    else if postId in posts then Response(OK, posts[postId := posts[postId].(content := content)])
    else Response(OK, posts)
  }

  /** `deletePost`: always 200; the post's comments are not touched. */
  function DeletePost(posts: Posts, postId: Id): (r: Response<Posts>)
    ensures r.status == OK
    ensures r.state.Keys == posts.Keys - {postId}
    ensures forall p :: p in r.state ==> r.state[p] == posts[p]
  {
    Response(OK, posts - {postId})
  }

  function LikesOf(posts: Posts, postId: Id): Option<seq<Id>> {
    if postId in posts then Some(posts[postId].likes) else None
  }

  /** Writes a like-handler result back into the addressed post. */
  function WithLikes(posts: Posts, postId: Id, r: Response<Option<seq<Id>>>): Response<Posts> {
    if r.status == OK && postId in posts && r.state.Some? then
      Response(OK, posts[postId := posts[postId].(likes := r.state.value)])
    else Response(r.status, posts)
  }

  /** `addLike` on a post (before its notification). */
  function LikePost(posts: Posts, callerId: Id, postId: Id): (r: Response<Posts>)
    ensures r.status in {OK, BAD_REQUEST, NOT_FOUND}
    ensures r.status != OK ==> r.state == posts
    ensures r.state.Keys == posts.Keys
    ensures forall p :: p in posts && p != postId ==> r.state[p] == posts[p]
  {
    WithLikes(posts, postId, Likes.AddLike(LikesOf(posts, postId), callerId))
  }

  /** `unlike` on a post. */
  function UnlikePost(posts: Posts, callerId: Id, postId: Id): (r: Response<Posts>)
    ensures r.status in {OK, NOT_FOUND}
    ensures r.status != OK ==> r.state == posts
    ensures r.state.Keys == posts.Keys
    ensures forall p :: p in posts && p != postId ==> r.state[p] == posts[p]
  {
    WithLikes(posts, postId, Likes.Unlike(LikesOf(posts, postId), callerId))
  }

  // ---------------------------------------------------------------------------

  /** Every entry of a listing is a post by one of the authors, projected for the
      viewer: liked exactly when the viewer is among its likes, and counted. */
  lemma ListingSound(posts: Posts, comments: map<Id, Comment>, viewerId: Id, authors: set<Id>, skip: nat, limit: nat)
    ensures var r := Listing(posts, comments, viewerId, authors, skip, limit);
      forall i :: 0 <= i < |r| ==>
        var id := r[i].post.id;
        && id in posts
        && posts[id].authorId in authors
        && r[i].post.authorId == posts[id].authorId
        && r[i].post.content == posts[id].content
        && (r[i].post.likedByUser <==> viewerId in posts[id].likes)
        && r[i].post.likesCount == |posts[id].likes|
        && r[i].commentsCount == CommentsCount(comments, id)
  {
    var keys := ByAuthors(posts, authors);
    var ids := Top(keys, skip, limit);
    var r := Entries(posts, comments, viewerId, ids);
    forall i | 0 <= i < |r|
      ensures r[i].post.id in posts && posts[r[i].post.id].authorId in authors
      ensures r[i] == Entry(posts, comments, viewerId, r[i].post.id)
    {
      assert ids[i] in keys;
      assert r[i] == Entry(posts, comments, viewerId, ids[i]);
    }
  }

  /** A listing is newest first (equal times: smaller id first) and holds no post twice. */
  lemma ListingOrdered(posts: Posts, comments: map<Id, Comment>, viewerId: Id, authors: set<Id>, skip: nat, limit: nat)
    ensures var r := Listing(posts, comments, viewerId, authors, skip, limit);
      forall i, j :: 0 <= i < j < |r| ==>
        r[i].post.createdAt > r[j].post.createdAt ||
        (r[i].post.createdAt == r[j].post.createdAt && r[i].post.id < r[j].post.id)
  {
    var keys := ByAuthors(posts, authors);
    var ids := Top(keys, skip, limit);
    var r := Entries(posts, comments, viewerId, ids);
    forall i, j | 0 <= i < j < |r|
      ensures r[i].post.createdAt > r[j].post.createdAt ||
              (r[i].post.createdAt == r[j].post.createdAt && r[i].post.id < r[j].post.id)
    {
      assert Before(keys, ids[i], ids[j]);
      assert r[i] == Entry(posts, comments, viewerId, ids[i]);
      assert r[j] == Entry(posts, comments, viewerId, ids[j]);
    }
  }

  /** A first page as long as the collection lists every post of the authors. */
  lemma ListingComplete(posts: Posts, comments: map<Id, Comment>, viewerId: Id, authors: set<Id>, limit: nat, p: Id)
    requires limit >= |posts| && p in posts && posts[p].authorId in authors
    ensures var r := Listing(posts, comments, viewerId, authors, 0, limit);
      exists i :: 0 <= i < |r| && r[i].post.id == p
  {
    var keys := ByAuthors(posts, authors);
    assert keys.Keys <= posts.Keys;
    SubsetCard(keys.Keys, posts.Keys);
    TopComplete(keys, limit, p);
    var ids := Top(keys, 0, limit);
    var i :| 0 <= i < |ids| && ids[i] == p;
    var r := Listing(posts, comments, viewerId, authors, 0, limit);
    assert r == Entries(posts, comments, viewerId, ids);
    assert r[i] == Entry(posts, comments, viewerId, p);
  }

  /** The feed shows the viewer's and the viewer's friends' posts and nobody else's. */
  lemma FeedAuthorsOnly(users: map<Id, User>, posts: Posts, comments: map<Id, Comment>, viewerId: Id,
                        skip: nat, limit: nat)
    requires viewerId in users
    ensures var r := GetFeed(users, posts, comments, viewerId, skip, limit);
      forall i :: 0 <= i < |r| ==>
        r[i].post.id in posts &&
        (r[i].post.authorId == viewerId || r[i].post.authorId in users[viewerId].friends)
  {
    var authors := FeedAuthors(users, viewerId);
    ListingAuthors(posts, comments, viewerId, authors, skip, limit);
  }

  /** Every listed entry is a stored post by one of the authors. */
  lemma ListingAuthors(posts: Posts, comments: map<Id, Comment>, viewerId: Id, authors: set<Id>, skip: nat, limit: nat)
    ensures var r := Listing(posts, comments, viewerId, authors, skip, limit);
      forall i :: 0 <= i < |r| ==> r[i].post.id in posts && r[i].post.authorId in authors
  {
    var keys := ByAuthors(posts, authors);
    var ids := Top(keys, skip, limit);
    var r := Entries(posts, comments, viewerId, ids);
    forall i | 0 <= i < |r|
      ensures r[i].post.id in posts && r[i].post.authorId in authors
    {
      assert ids[i] in keys;
      assert r[i] == Entry(posts, comments, viewerId, ids[i]);
    }
  }

  /** `getPosts` lists only the requested user's posts. */
  lemma GetPostsAuthorOnly(posts: Posts, comments: map<Id, Comment>, viewerId: Id, authorId: Id, skip: nat, limit: nat)
    ensures var r := GetPosts(posts, comments, viewerId, authorId, skip, limit);
      forall i :: 0 <= i < |r| ==> r[i].post.authorId == authorId
  {
    ListingAuthors(posts, comments, viewerId, {authorId}, skip, limit);
  }

  lemma EntriesAppend(posts: Posts, comments: map<Id, Comment>, viewerId: Id, p: seq<Id>, q: seq<Id>)
    requires forall i :: 0 <= i < |p| ==> p[i] in posts
    requires forall i :: 0 <= i < |q| ==> q[i] in posts
    ensures forall i :: 0 <= i < |p + q| ==> (p + q)[i] in posts
    ensures Entries(posts, comments, viewerId, p) + Entries(posts, comments, viewerId, q)
         == Entries(posts, comments, viewerId, p + q)
  {
    assert forall i :: 0 <= i < |p + q| ==> (p + q)[i] == if i < |p| then p[i] else q[i - |p|];
  }

  /** Consecutive pages of a listing tile it. */
  lemma ListingPages(posts: Posts, comments: map<Id, Comment>, viewerId: Id, authors: set<Id>, skip: nat, a: nat, b: nat)
    ensures Listing(posts, comments, viewerId, authors, skip, a) + Listing(posts, comments, viewerId, authors, skip + a, b)
         == Listing(posts, comments, viewerId, authors, skip, a + b)
  {
    var keys := ByAuthors(posts, authors);
    TopPages(keys, skip, a, b);
    EntriesAppend(posts, comments, viewerId, Top(keys, skip, a), Top(keys, skip + a, b));
  }

  /** `getPost` answers 404 exactly for an unknown id. */
  lemma GetPostOutcome(posts: Posts, viewerId: Id, postId: Id)
    ensures var r := GetPost(posts, viewerId, postId);
      && (r.status == NOT_FOUND <==> postId !in posts)
      && (r.status == OK ==>
            && r.state.Some?
            && r.state.value.id == postId
            && (r.state.value.likedByUser <==> viewerId in posts[postId].likes)
            && r.state.value.likesCount == |posts[postId].likes|)
  {
  }

  /** `addPost` answers 400, creating nothing, when the validator complains, when a
      file is not an image, or when there is neither an image nor content;
      otherwise it creates exactly one post, by the caller, without likes. */
  lemma AddPostOutcome(posts: Posts, callerId: Id, contentErrors: seq<string>, hasFile: bool, fileIsImage: bool,
                       content: string, newId: Id, now: nat)
    requires newId !in posts
    ensures var r := AddPost(posts, callerId, contentErrors, hasFile, fileIsImage, content, newId, now);
      && (r.status == BAD_REQUEST <==>
            contentErrors != [] || (hasFile && !fileIsImage) || (!fileIsImage && |content| == 0))
      && (r.status == BAD_REQUEST ==> r.state == posts)
      && (r.status == CREATED ==>
            && r.state.Keys == posts.Keys + {newId}
            && r.state[newId].authorId == callerId
            && r.state[newId].content == content
            && r.state[newId].likes == []
            && forall p :: p in posts ==> r.state[p] == posts[p])
      && (r.status == BAD_REQUEST || r.status == CREATED)
  {
    var errs := AddPostErrors(contentErrors, hasFile, fileIsImage, content);
    assert (hasFile && !fileIsImage) ==> "image" in errs;
    assert (!fileIsImage && |content| == 0) ==> "content" in errs;
  }

  /** A post with an image may have empty content. */
  lemma ImagePostMayBeEmpty(posts: Posts, callerId: Id, newId: Id, now: nat)
    ensures AddPost(posts, callerId, [], true, true, "", newId, now).status == CREATED
  {
  }

  /** Editing changes only the content of the addressed post. */
  lemma EditPostOutcome(posts: Posts, contentValid: bool, postId: Id, content: string)
    ensures var r := EditPost(posts, contentValid, postId, content);
      && (r.status == BAD_REQUEST <==> !contentValid)
      && r.state.Keys == posts.Keys
      && (forall p :: p in posts && (p != postId || !contentValid) ==> r.state[p] == posts[p])
      && (contentValid && postId in posts ==>
            r.state[postId] == posts[postId].(content := content))
  {
  }

  /** Deleting removes exactly the addressed post. */
  lemma DeletePostOutcome(posts: Posts, postId: Id)
    ensures var r := DeletePost(posts, postId);
      && r.status == OK
      && postId !in r.state
      && r.state.Keys == posts.Keys - {postId}
      && forall p :: p in r.state ==> r.state[p] == posts[p]
  {
  }

  /** Liking a post: 200 and the caller appended exactly when the post exists and
      the caller had not liked it; 400 for a repeated like, 404 for no post;
      only the addressed post's likes change. */
  lemma LikePostOutcome(posts: Posts, callerId: Id, postId: Id)
    ensures var r := LikePost(posts, callerId, postId);
      && (r.status == OK <==> postId in posts && callerId !in posts[postId].likes)
      && (r.status == BAD_REQUEST <==> postId in posts && callerId in posts[postId].likes)
      && (r.status == NOT_FOUND <==> postId !in posts)
      && (r.status != OK ==> r.state == posts)
      && (r.status == OK ==>
            r.state == posts[postId := posts[postId].(likes := posts[postId].likes + [callerId])])
  {
    Likes.AddLikeOutcomes(LikesOf(posts, postId), callerId);
  }

  /** Unliking a post: 200 and the caller removed when they had liked it;
      otherwise 404, never 400. */
  lemma UnlikePostOutcome(posts: Posts, callerId: Id, postId: Id)
    ensures var r := UnlikePost(posts, callerId, postId);
      && (r.status == OK || r.status == NOT_FOUND)
      && (r.status == OK <==> postId in posts && callerId in posts[postId].likes)
      && (r.status == NOT_FOUND ==> r.state == posts)
      && (r.status == OK ==>
            r.state == posts[postId := posts[postId].(likes := RemoveAll(posts[postId].likes, callerId))])
  {
    Likes.UnlikeOutcomes(LikesOf(posts, postId), callerId);
  }

  /** Liking then unliking a post restores the collection. */
  lemma LikeUnlikePostRoundTrip(posts: Posts, callerId: Id, postId: Id)
    requires LikePost(posts, callerId, postId).status == OK
    ensures var liked := LikePost(posts, callerId, postId).state;
      UnlikePost(liked, callerId, postId) == Response(OK, posts)
  {
    LikePostOutcome(posts, callerId, postId);
    Likes.LikeThenUnlike(posts[postId].likes, callerId);
    var liked := LikePost(posts, callerId, postId).state;
    assert liked[postId := posts[postId]] == posts;
  }
}
