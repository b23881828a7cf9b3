/** `manipulateModel`: turn a post-like record into what a viewer is sent,
    with a `likedByUser` flag in place of the `likes` list. Records are
    immutable values here, so every result is a new record and the input is
    never changed. */
module ManipulateModel {
  import opened Common

  /** The field values these transforms look at or produce. */
  datatype Value =
    | IdList(ids: seq<Id>)
    | Flag(b: bool)
    | Opaque(text: string)

  type Record = map<string, Value>

  const LIKES: string := "likes"
  const LIKED_BY_USER: string := "likedByUser"

  /** What the transforms' parameter type demands: a `likes` list of ids. */
  predicate HasLikes(obj: Record) {
    LIKES in obj && obj[LIKES].IdList?
  }

  /** `addLikedByUserField`: `{likedByUser, ...obj}`, so a field of `obj` wins. */
  function AddLikedByUserField(obj: Record, userId: Id): (r: Record)
    requires HasLikes(obj)
    ensures r.Keys == obj.Keys + {LIKED_BY_USER}
  {
    map[LIKED_BY_USER := Flag(userId in obj[LIKES].ids)] + obj
  }

  /** `removeLikesField`: everything but `likes`. */
  function RemoveLikesField(obj: Record): (r: Record)
    ensures r.Keys == obj.Keys - {LIKES}
  {
    obj - {LIKES}
  }

  /** `addLikedByUserFieldAndRemoveLikesField`. */
  function AddLikedByUserFieldAndRemoveLikesField(obj: Record, userId: Id): (r: Record)
    requires HasLikes(obj)
    ensures r.Keys == (obj.Keys - {LIKES}) + {LIKED_BY_USER}
  {
    assert LIKED_BY_USER != LIKES;
    RemoveLikesField(AddLikedByUserField(obj, userId))
  }

  // ---------------------------------------------------------------------------

  /** Without a `likedByUser` field of its own, the added flag is true exactly
      when the user is among the likes. */
  lemma LikedByUserIffLiked(obj: Record, userId: Id)
    requires HasLikes(obj) && LIKED_BY_USER !in obj
    ensures var r := AddLikedByUserField(obj, userId);
      && r[LIKED_BY_USER].Flag?
      && (r[LIKED_BY_USER].b <==> exists i :: 0 <= i < |obj[LIKES].ids| && obj[LIKES].ids[i] == userId)
  {
  }

  /** An existing `likedByUser` field is kept as it was: the spread overrides
      the computed value. */
  lemma ExistingFlagOverrides(obj: Record, userId: Id)
    requires HasLikes(obj) && LIKED_BY_USER in obj
    ensures AddLikedByUserField(obj, userId) == obj
  {
  }

  /** Adding the flag changes no other field. */
  lemma AddKeepsFields(obj: Record, userId: Id)
    requires HasLikes(obj)
    ensures var r := AddLikedByUserField(obj, userId);
      forall k :: k in obj ==> r[k] == obj[k]
  {
  }

  /** Removing `likes` keeps every other field as it was. */
  lemma RemoveKeepsFields(obj: Record)
    ensures var r := RemoveLikesField(obj);
      && LIKES !in r
      && forall k :: k in obj && k != LIKES ==> k in r && r[k] == obj[k]
  {
  }

  /** The composed transform yields `likedByUser` and no `likes`; the other
      fields pass through. */
  lemma ComposedShape(obj: Record, userId: Id)
    requires HasLikes(obj)
    ensures var r := AddLikedByUserFieldAndRemoveLikesField(obj, userId);
      && LIKED_BY_USER in r
      && LIKES !in r
      && r.Keys == (obj.Keys - {LIKES}) + {LIKED_BY_USER}
      && (LIKED_BY_USER !in obj ==> r[LIKED_BY_USER] == Flag(userId in obj[LIKES].ids))
      && forall k :: k in obj && k != LIKES ==> r[k] == obj[k]
  {
    assert LIKED_BY_USER != LIKES;
  }

  /** The composed transform is the projection the feed and post queries compute:
      `likedByUser` iff the viewer is among the likes. */
  lemma ComposedAgreesWithQueries(likes: seq<Id>, userId: Id, rest: Record)
    requires LIKES !in rest && LIKED_BY_USER !in rest
    ensures var r := AddLikedByUserFieldAndRemoveLikesField(rest[LIKES := IdList(likes)], userId);
      r == rest[LIKED_BY_USER := Flag(userId in likes)]
  {
    assert LIKED_BY_USER != LIKES;
    var r := AddLikedByUserFieldAndRemoveLikesField(rest[LIKES := IdList(likes)], userId);
    assert r.Keys == rest.Keys + {LIKED_BY_USER};
  }
}
