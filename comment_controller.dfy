/** `commentController`: create, list, read, edit, delete, like and unlike the
    comments of a post. */
module CommentController {
  import opened Common
  import opened Records
  import opened Ranking
  import Likes

  type Comments = map<Id, Comment>

  /** What the queries project of a comment for a viewer. */
  datatype CommentView = CommentView(
    id: Id,
    authorId: Id,
    content: string,
    likedByUser: bool,
    likesCount: nat,
    createdAt: nat)

  function View(comments: Comments, viewerId: Id, id: Id): (v: CommentView)
    requires id in comments
  {
    var c := comments[id];
    CommentView(id, c.authorId, c.content, viewerId in c.likes, |c.likes|, c.createdAt)
  }

  /** `addComment`: a validation error answers 400 before the post is looked up;
      an unknown post answers 404; otherwise the caller's comment is created, 201. */
  function AddComment(comments: Comments, posts: map<Id, Post>, callerId: Id, contentValid: bool,
                      postId: Id, content: string, newId: Id, now: nat): (r: Response<Comments>)
    ensures r.status in {CREATED, BAD_REQUEST, NOT_FOUND}
    ensures r.status != CREATED ==> r.state == comments
    ensures r.status == CREATED ==>
      r.state.Keys == comments.Keys + {newId} && r.state[newId].authorId == callerId && r.state[newId].postId == postId
  {
    if !contentValid then Response(BAD_REQUEST, comments)
    else if postId !in posts then Response(NOT_FOUND, comments)
    else Response(CREATED, comments[newId := Comment(callerId, postId, content, [], now)])
  }

  /** The comments of one post, each with its sort key. */
  function OfPost(comments: Comments, postId: Id, sortKey: Comment -> nat): (keys: map<Id, nat>)
    ensures forall c :: c in keys <==> c in comments && comments[c].postId == postId
    ensures forall c :: c in keys ==> keys[c] == sortKey(comments[c])
  {
    map c | c in comments && comments[c].postId == postId :: sortKey(comments[c])
  }

  /** The `$unwind` of the author lookup: a comment whose author is gone drops out. */
  function WithKnownAuthor(users: map<Id, User>, comments: Comments, ids: seq<Id>): (r: seq<Id>)
    requires forall i :: 0 <= i < |ids| ==> ids[i] in comments
    ensures |r| <= |ids|
    ensures forall i :: 0 <= i < |r| ==> r[i] in ids && r[i] in comments && comments[r[i]].authorId in users
  {
    if ids == [] then []
    else
      var rest := WithKnownAuthor(users, comments, ids[1..]);
      if comments[ids[0]].authorId in users then [ids[0]] + rest else rest
  }

  /** `getAllComments`: the post's comments, sorted by the requested key
      (descending, ties by id), windowed, and only then joined with their
      authors, so a page can come out shorter than the window. */
  function GetAllComments(users: map<Id, User>, comments: Comments, viewerId: Id, postId: Id,
                          sortKey: Comment -> nat, skip: nat, limit: nat): (r: seq<CommentView>)
    ensures |r| <= limit
  {
    Views(comments, viewerId, PageIds(users, comments, postId, sortKey, skip, limit))
  }

  /** The ids `getAllComments` lists. */
  function PageIds(users: map<Id, User>, comments: Comments, postId: Id,
                   sortKey: Comment -> nat, skip: nat, limit: nat): (ids: seq<Id>)
    ensures |ids| <= limit
    ensures forall i :: 0 <= i < |ids| ==>
      ids[i] in comments && comments[ids[i]].postId == postId && comments[ids[i]].authorId in users
  {
    WithKnownAuthor(users, comments, Top(OfPost(comments, postId, sortKey), skip, limit))
  }

  /** The projection of each listed comment, in order. */
  function Views(comments: Comments, viewerId: Id, ids: seq<Id>): (r: seq<CommentView>)
    requires forall i :: 0 <= i < |ids| ==> ids[i] in comments
    ensures |r| == |ids|
    ensures forall i :: 0 <= i < |ids| ==> r[i] == View(comments, viewerId, ids[i])
  {
    seq(|ids|, i requires 0 <= i < |ids| => View(comments, viewerId, ids[i]))
  }

  /** `getComment`: 404 when the comment or its author is missing. */
  function GetComment(users: map<Id, User>, comments: Comments, viewerId: Id, commentId: Id): (r: Response<Option<CommentView>>)
    ensures r.status in {OK, NOT_FOUND}
    ensures r.state.Some? <==> r.status == OK
  {
    if commentId in comments && comments[commentId].authorId in users then
      Response(OK, Some(View(comments, viewerId, commentId)))
    else Response(NOT_FOUND, None)
  }

  /** `editComment`: 400 on a validation error; otherwise the content of the
      comment, if any, is replaced and the answer is 200. */
  function EditComment(comments: Comments, contentValid: bool, commentId: Id, content: string): (r: Response<Comments>)
    ensures r.status == if contentValid then OK else BAD_REQUEST
    ensures r.state.Keys == comments.Keys
    ensures forall c :: c in comments && c != commentId ==> r.state[c] == comments[c]
  {
    if !contentValid then Response(BAD_REQUEST, comments)
    else if commentId in comments then Response(OK, comments[commentId := comments[commentId].(content := content)])
    else Response(OK, comments)
  }

  /** `deleteComment`: 404 when nothing was deleted. */
  function DeleteComment(comments: Comments, commentId: Id): (r: Response<Comments>)
    ensures r.status in {OK, NOT_FOUND}
    ensures r.state.Keys == comments.Keys - {commentId}
    ensures forall c :: c in r.state ==> r.state[c] == comments[c]
  {
    if commentId in comments then Response(OK, comments - {commentId}) else Response(NOT_FOUND, comments)
  }

  function LikesOf(comments: Comments, commentId: Id): Option<seq<Id>> {
    if commentId in comments then Some(comments[commentId].likes) else None
  }

  function WithLikes(comments: Comments, commentId: Id, r: Response<Option<seq<Id>>>): Response<Comments> {
    if r.status == OK && commentId in comments && r.state.Some? then
      Response(OK, comments[commentId := comments[commentId].(likes := r.state.value)])
    else Response(r.status, comments)
  }

  /** `addLike` on a comment (before its notification). */
  function LikeComment(comments: Comments, callerId: Id, commentId: Id): (r: Response<Comments>)
    ensures r.status in {OK, BAD_REQUEST, NOT_FOUND}
    ensures r.status != OK ==> r.state == comments
    ensures r.state.Keys == comments.Keys
    ensures forall c :: c in comments && c != commentId ==> r.state[c] == comments[c]
  {
    WithLikes(comments, commentId, Likes.AddLike(LikesOf(comments, commentId), callerId))
  }

  /** `unlike` on a comment. */
  function UnlikeComment(comments: Comments, callerId: Id, commentId: Id): (r: Response<Comments>)
    ensures r.status in {OK, NOT_FOUND}
    ensures r.status != OK ==> r.state == comments
    ensures r.state.Keys == comments.Keys
    ensures forall c :: c in comments && c != commentId ==> r.state[c] == comments[c]
  {
    WithLikes(comments, commentId, Likes.Unlike(LikesOf(comments, commentId), callerId))
  }

  // ---------------------------------------------------------------------------

  /** The validation error comes first, then the missing post; a created comment
      belongs to the caller and the post and has no likes. */
  lemma AddCommentOutcome(comments: Comments, posts: map<Id, Post>, callerId: Id, contentValid: bool,
                          postId: Id, content: string, newId: Id, now: nat)
    requires newId !in comments
    ensures var r := AddComment(comments, posts, callerId, contentValid, postId, content, newId, now);
      && (r.status == BAD_REQUEST <==> !contentValid)
      && (r.status == NOT_FOUND <==> contentValid && postId !in posts)
      && (r.status == CREATED <==> contentValid && postId in posts)
      && (r.status != CREATED ==> r.state == comments)
      && (r.status == CREATED ==>
            && r.state.Keys == comments.Keys + {newId}
            && r.state[newId].authorId == callerId
            && r.state[newId].postId == postId
            && r.state[newId].likes == []
            && forall c :: c in comments ==> r.state[c] == comments[c])
  {
  }

  /** Every listed comment belongs to the post and has a known author; its like
      flag and count are read from its likes. */
  lemma GetAllCommentsSound(users: map<Id, User>, comments: Comments, viewerId: Id, postId: Id,
                            sortKey: Comment -> nat, skip: nat, limit: nat)
    ensures var r := GetAllComments(users, comments, viewerId, postId, sortKey, skip, limit);
      && |r| <= limit
      && forall i :: 0 <= i < |r| ==>
           var id := r[i].id;
           && id in comments
           && comments[id].postId == postId
           && r[i].authorId in users
           && r[i].content == comments[id].content
           && (r[i].likedByUser <==> viewerId in comments[id].likes)
           && r[i].likesCount == |comments[id].likes|
  {
    var ids := PageIds(users, comments, postId, sortKey, skip, limit);
    var r := Views(comments, viewerId, ids);
    forall i | 0 <= i < |r|
      ensures r[i].id in comments && comments[r[i].id].postId == postId && r[i].authorId in users
      ensures r[i].content == comments[r[i].id].content
      ensures r[i].likedByUser <==> viewerId in comments[r[i].id].likes
      ensures r[i].likesCount == |comments[r[i].id].likes|
    {
      assert r[i] == View(comments, viewerId, ids[i]);
    }
  }

  /** The listing follows the sort key, larger first, ties by smaller id. */
  lemma GetAllCommentsOrdered(users: map<Id, User>, comments: Comments, viewerId: Id, postId: Id,
                              sortKey: Comment -> nat, skip: nat, limit: nat)
    ensures var r := GetAllComments(users, comments, viewerId, postId, sortKey, skip, limit);
      forall i, j :: 0 <= i < j < |r| ==>
        var a, b := comments[r[i].id], comments[r[j].id];
        sortKey(a) > sortKey(b) || (sortKey(a) == sortKey(b) && r[i].id < r[j].id)
  {
    var keys := OfPost(comments, postId, sortKey);
    var ids := PageIds(users, comments, postId, sortKey, skip, limit);
    PageIdsOrdered(users, comments, postId, sortKey, skip, limit);
    var r := Views(comments, viewerId, ids);
    assert forall i :: 0 <= i < |r| ==> r[i].id == ids[i];
    forall i, j | 0 <= i < j < |r|
      ensures sortKey(comments[r[i].id]) > sortKey(comments[r[j].id]) ||
              (sortKey(comments[r[i].id]) == sortKey(comments[r[j].id]) && r[i].id < r[j].id)
    {
      assert Before(keys, ids[i], ids[j]);
      assert ids[i] in keys && ids[j] in keys;
    }
  }

  lemma PageIdsOrdered(users: map<Id, User>, comments: Comments, postId: Id,
                       sortKey: Comment -> nat, skip: nat, limit: nat)
    ensures var ids := PageIds(users, comments, postId, sortKey, skip, limit);
      forall i, j :: 0 <= i < j < |ids| ==> Before(OfPost(comments, postId, sortKey), ids[i], ids[j])
  {
    var keys := OfPost(comments, postId, sortKey);
    var top := Top(keys, skip, limit);
    assert RankedBy(keys, top);
    WithKnownAuthorOrder(users, comments, top, keys);
    assert RankedBy(keys, PageIds(users, comments, postId, sortKey, skip, limit));
  }

  /** Dropping entries keeps the remaining ones in their ranking order. */
  lemma {:induction false} WithKnownAuthorOrder(users: map<Id, User>, comments: Comments, ids: seq<Id>, keys: map<Id, nat>)
    requires forall i :: 0 <= i < |ids| ==> ids[i] in comments
    requires RankedBy(keys, ids)
    ensures RankedBy(keys, WithKnownAuthor(users, comments, ids))
  {
    if ids != [] {
      RankedByTail(keys, ids);
      WithKnownAuthorOrder(users, comments, ids[1..], keys);
      if comments[ids[0]].authorId in users {
        var rest := WithKnownAuthor(users, comments, ids[1..]);
        assert forall y :: y in rest ==> y in ids[1..];
        RankedByCons(keys, ids[0], rest);
      }
    }
  }

  lemma {:induction false} WithKnownAuthorAppend(users: map<Id, User>, comments: Comments, p: seq<Id>, q: seq<Id>)
    requires forall i :: 0 <= i < |p| ==> p[i] in comments
    requires forall i :: 0 <= i < |q| ==> q[i] in comments
    ensures forall i :: 0 <= i < |p + q| ==> (p + q)[i] in comments
    ensures WithKnownAuthor(users, comments, p) + WithKnownAuthor(users, comments, q)
         == WithKnownAuthor(users, comments, p + q)
  {
    assert forall i :: 0 <= i < |p + q| ==> (p + q)[i] == if i < |p| then p[i] else q[i - |p|];
    if p == [] {
      assert p + q == q;
    } else {
      assert (p + q)[0] == p[0];
      assert (p + q)[1..] == p[1..] + q;
      WithKnownAuthorAppend(users, comments, p[1..], q);
    }
  }

  /** Consecutive windows of ids, each filtered, make up the filtered larger window. */
  lemma PageIdsPages(users: map<Id, User>, comments: Comments, postId: Id,
                     sortKey: Comment -> nat, skip: nat, a: nat, b: nat)
    ensures PageIds(users, comments, postId, sortKey, skip, a) + PageIds(users, comments, postId, sortKey, skip + a, b)
         == PageIds(users, comments, postId, sortKey, skip, a + b)
  {
    var keys := OfPost(comments, postId, sortKey);
    TopPages(keys, skip, a, b);
    WithKnownAuthorAppend(users, comments, Top(keys, skip, a), Top(keys, skip + a, b));
  }

  lemma ViewsAppend(comments: Comments, viewerId: Id, p: seq<Id>, q: seq<Id>)
    requires forall i :: 0 <= i < |p| ==> p[i] in comments
    requires forall i :: 0 <= i < |q| ==> q[i] in comments
    ensures forall i :: 0 <= i < |p + q| ==> (p + q)[i] in comments
    ensures Views(comments, viewerId, p) + Views(comments, viewerId, q) == Views(comments, viewerId, p + q)
  {
    assert forall i :: 0 <= i < |p + q| ==> (p + q)[i] == if i < |p| then p[i] else q[i - |p|];
  }

  /** Short pages still tile: two consecutive pages hold what one page spanning
      both holds, because the author filter runs page by page. */
  lemma GetAllCommentsPages(users: map<Id, User>, comments: Comments, viewerId: Id, postId: Id,
                            sortKey: Comment -> nat, skip: nat, a: nat, b: nat)
    ensures GetAllComments(users, comments, viewerId, postId, sortKey, skip, a) +
            GetAllComments(users, comments, viewerId, postId, sortKey, skip + a, b) ==
            GetAllComments(users, comments, viewerId, postId, sortKey, skip, a + b)
  {
    var p := PageIds(users, comments, postId, sortKey, skip, a);
    var q := PageIds(users, comments, postId, sortKey, skip + a, b);
    PageIdsPages(users, comments, postId, sortKey, skip, a, b);
    ViewsAppend(comments, viewerId, p, q);
  }

  /** A first page wide enough for the whole collection lists every comment of
      the post whose author exists. */
  lemma GetAllCommentsComplete(users: map<Id, User>, comments: Comments, viewerId: Id, postId: Id,
                               sortKey: Comment -> nat, limit: nat, c: Id)
    requires limit >= |comments| && c in comments && comments[c].postId == postId
    requires comments[c].authorId in users
    ensures var r := GetAllComments(users, comments, viewerId, postId, sortKey, 0, limit);
      exists i :: 0 <= i < |r| && r[i].id == c
  {
    PageIdsComplete(users, comments, postId, sortKey, limit, c);
    var ids := PageIds(users, comments, postId, sortKey, 0, limit);
    var i :| 0 <= i < |ids| && ids[i] == c;
    var r := GetAllComments(users, comments, viewerId, postId, sortKey, 0, limit);
    assert r == Views(comments, viewerId, ids);
    assert r[i] == View(comments, viewerId, c);
  }

  lemma PageIdsComplete(users: map<Id, User>, comments: Comments, postId: Id,
                        sortKey: Comment -> nat, limit: nat, c: Id)
    requires limit >= |comments| && c in comments && comments[c].postId == postId
    requires comments[c].authorId in users
    ensures c in PageIds(users, comments, postId, sortKey, 0, limit)
  {
    var keys := OfPost(comments, postId, sortKey);
    assert keys.Keys <= comments.Keys;
    SubsetCard(keys.Keys, comments.Keys);
    TopComplete(keys, limit, c);
    var top := Top(keys, 0, limit);
    var j :| 0 <= j < |top| && top[j] == c;
    WithKnownAuthorKeeps(users, comments, top, j);
  }

  /** A listed comment whose author exists survives the `$unwind`. */
  lemma {:induction false} WithKnownAuthorKeeps(users: map<Id, User>, comments: Comments, ids: seq<Id>, j: nat)
    requires forall i :: 0 <= i < |ids| ==> ids[i] in comments
    requires j < |ids| && comments[ids[j]].authorId in users
    ensures ids[j] in WithKnownAuthor(users, comments, ids)
  {
    if j > 0 {
      assert ids[1..][j - 1] == ids[j];
      WithKnownAuthorKeeps(users, comments, ids[1..], j - 1);
    }
  }

  /** A comment whose author is gone is hidden from its page, which comes out short. */
  lemma OrphanShortensPage(users: map<Id, User>, comments: Comments, viewerId: Id, postId: Id,
                           sortKey: Comment -> nat, c: Id)
    requires comments == map[c := Comment(0, postId, "", [], 0)] && 0 !in users
    ensures GetAllComments(users, comments, viewerId, postId, sortKey, 0, 1) == []
  {
    var keys := OfPost(comments, postId, sortKey);
    assert keys == map[c := sortKey(comments[c])];
    assert |Top(keys, 0, 1)| == 1;
  }

  /** `getComment` finds exactly a comment with a known author. */
  lemma GetCommentOutcome(users: map<Id, User>, comments: Comments, viewerId: Id, commentId: Id)
    ensures var r := GetComment(users, comments, viewerId, commentId);
      && (r.status == OK <==> commentId in comments && comments[commentId].authorId in users)
      && (r.status == OK || r.status == NOT_FOUND)
      && (r.status == OK ==>
            && r.state.Some?
            && r.state.value.id == commentId
            && (r.state.value.likedByUser <==> viewerId in comments[commentId].likes)
            && r.state.value.likesCount == |comments[commentId].likes|)
  {
  }

  /** Editing touches only the content of the addressed comment. */
  lemma EditCommentOutcome(comments: Comments, contentValid: bool, commentId: Id, content: string)
    ensures var r := EditComment(comments, contentValid, commentId, content);
      && (r.status == BAD_REQUEST <==> !contentValid)
      && r.state.Keys == comments.Keys
      && (forall c :: c in comments && (c != commentId || !contentValid) ==> r.state[c] == comments[c])
      && (contentValid && commentId in comments ==>
            r.state[commentId] == comments[commentId].(content := content))
  {
  }

  /** Deleting answers 404 exactly when the comment did not exist, and removes only it. */
  lemma DeleteCommentOutcome(comments: Comments, commentId: Id)
    ensures var r := DeleteComment(comments, commentId);
      && (r.status == NOT_FOUND <==> commentId !in comments)
      && (r.status == OK <==> commentId in comments)
      && r.state.Keys == comments.Keys - {commentId}
      && forall c :: c in r.state ==> r.state[c] == comments[c]
  {
  }

  /** Liking a comment: 200 with the caller appended when it exists and the
      caller had not liked it; 400 for a repeat, 404 for no comment. */
  lemma LikeCommentOutcome(comments: Comments, callerId: Id, commentId: Id)
    ensures var r := LikeComment(comments, callerId, commentId);
      && (r.status == OK <==> commentId in comments && callerId !in comments[commentId].likes)
      && (r.status == BAD_REQUEST <==> commentId in comments && callerId in comments[commentId].likes)
      && (r.status == NOT_FOUND <==> commentId !in comments)
      && (r.status != OK ==> r.state == comments)
      && (r.status == OK ==>
            r.state == comments[commentId := comments[commentId].(likes := comments[commentId].likes + [callerId])])
  {
    Likes.AddLikeOutcomes(LikesOf(comments, commentId), callerId);
  }

  /** A second like from the same user leaves one like. */
  lemma SecondCommentLikeRejected(comments: Comments, callerId: Id, commentId: Id)
    requires commentId in comments && comments[commentId].likes == []
    ensures var once := LikeComment(comments, callerId, commentId);
      var twice := LikeComment(once.state, callerId, commentId);
      && once.status == OK
      && twice.status == BAD_REQUEST
      && twice.state[commentId].likes == [callerId]
  {
    LikeCommentOutcome(comments, callerId, commentId);
    var once := LikeComment(comments, callerId, commentId);
    LikeCommentOutcome(once.state, callerId, commentId);
  }

  /** Unliking a comment: 200 with only the caller removed when they had liked
      it; otherwise 404, never 400. */
  lemma UnlikeCommentOutcome(comments: Comments, callerId: Id, commentId: Id)
    ensures var r := UnlikeComment(comments, callerId, commentId);
      && (r.status == OK || r.status == NOT_FOUND)
      && (r.status == OK <==> commentId in comments && callerId in comments[commentId].likes)
      && (r.status == NOT_FOUND ==> r.state == comments)
      && (r.status == OK ==>
            r.state == comments[commentId := comments[commentId].(likes := RemoveAll(comments[commentId].likes, callerId))])
  {
    Likes.UnlikeOutcomes(LikesOf(comments, commentId), callerId);
  }
}
