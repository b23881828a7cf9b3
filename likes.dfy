/** The like and unlike handlers shared by posts and comments, as seen by the
    one document they address (`None` when no document has that id):
    `addLike` pushes the caller only when absent, `unlike` pulls the caller only
    when present. */
module Likes {
  import opened Common

  /** `updateOne({_id, likes: {$nin: [caller]}}, {$push: {likes: caller}})`; when
      nothing was modified, 400 if the document exists and 404 otherwise. */
  function AddLike(likes: Option<seq<Id>>, callerId: Id): (r: Response<Option<seq<Id>>>)
    ensures r.status in {OK, BAD_REQUEST, NOT_FOUND}
    ensures r.state.Some? <==> likes.Some?
    ensures r.status != OK ==> r.state == likes
    ensures r.status == OK ==> likes.Some? && callerId !in likes.value && multiset(r.state.value) == multiset(likes.value) + multiset{callerId}
  {
    match likes
    case None => Response(NOT_FOUND, likes)
    case Some(l) =>
      if callerId in l then Response(BAD_REQUEST, likes)
      else Response(OK, Some(l + [callerId]))
  }

  /** `updateOne({_id, likes: caller}, {$pull: {likes: caller}})`; when nothing
      was modified, 400 if a document matched and 404 otherwise. A matched
      document always holds the caller, so the pull always modifies it. */
  function Unlike(likes: Option<seq<Id>>, callerId: Id): (r: Response<Option<seq<Id>>>)
    ensures r.status in {OK, NOT_FOUND}
    ensures r.state.Some? <==> likes.Some?
    ensures r.status != OK ==> r.state == likes
    ensures r.status == OK ==> likes.Some? && callerId in likes.value && callerId !in r.state.value && |r.state.value| < |likes.value|
  {
    match likes
    case Some(l) =>
      if callerId in l then Response(OK, Some(RemoveAll(l, callerId))) else Response(NOT_FOUND, likes)
    case None => Response(NOT_FOUND, likes)
  }

  // ---------------------------------------------------------------------------

  /** The outcomes of a like: 200 exactly when the document exists and the
      caller had not liked it, with the caller appended; otherwise nothing
      changes, and the answer is 400 for an existing document, 404 for none. */
  lemma AddLikeOutcomes(likes: Option<seq<Id>>, callerId: Id)
    ensures var r := AddLike(likes, callerId);
      && (r.status == OK <==> likes.Some? && callerId !in likes.value)
      && (r.status == OK ==> r.state == Some(likes.value + [callerId]))
      && (r.status == BAD_REQUEST <==> likes.Some? && callerId in likes.value)
      && (r.status == NOT_FOUND <==> likes.None?)
      && (r.status != OK ==> r.state == likes)
      && (r.state.Some? ==> callerId in r.state.value)
  {
  }

  /** Liking never introduces a repeated like. */
  lemma AddLikeKeepsNoDup(likes: seq<Id>, callerId: Id)
    requires NoDup(likes)
    ensures var r := AddLike(Some(likes), callerId); r.state.Some? && NoDup(r.state.value)
  {
  }

  /** A second like is rejected with 400 and leaves one like from the caller. */
  lemma SecondLikeRejected(likes: seq<Id>, callerId: Id)
    requires callerId !in likes
    ensures var once := AddLike(Some(likes), callerId);
      var twice := AddLike(once.state, callerId);
      && twice.status == BAD_REQUEST
      && twice.state == once.state
      && |twice.state.value| == |likes| + 1
  {
  }

  /** Unlike answers 200 or 404, never 400: "not liked" and "no such document"
      both come back as 404. After a 200 the caller's like is gone and every
      other like is kept. */
  lemma UnlikeOutcomes(likes: Option<seq<Id>>, callerId: Id)
    ensures var r := Unlike(likes, callerId);
      && (r.status == OK || r.status == NOT_FOUND)
      && (r.status == OK <==> likes.Some? && callerId in likes.value)
      && (r.status == NOT_FOUND ==> r.state == likes)
      && (r.status == OK ==>
            && r.state.Some?
            && callerId !in r.state.value
            && |r.state.value| < |likes.value|
            && forall x :: x != callerId ==> (x in r.state.value <==> x in likes.value))
  {
  }

  /** Unliking a like just added restores the likes as they were. */
  lemma LikeThenUnlike(likes: seq<Id>, callerId: Id)
    requires callerId !in likes
    ensures var liked := AddLike(Some(likes), callerId);
      var unliked := Unlike(liked.state, callerId);
      liked.status == OK && unliked.status == OK && unliked.state == Some(likes)
  {
    RemoveAppendAbsent(likes, callerId);
  }

  lemma {:induction false} RemoveAppendAbsent(s: seq<Id>, x: Id)
    requires x !in s
    ensures RemoveAll(s + [x], x) == s
  {
    if s == [] {
      assert [x][1..] == [];
    } else {
      assert (s + [x])[0] == s[0];
      assert (s + [x])[1..] == s[1..] + [x];
      RemoveAppendAbsent(s[1..], x);
    }
  }
}
