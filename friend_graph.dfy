/** The friend graph of `userController`: the relationship state between two
    users and the friend-request and friend handlers, each as a transition of
    the user collection that yields the handler's response code. */
module FriendGraph {
  import opened Common
  import opened Records
  import opened FriendRequests

  type Users = map<Id, User>

  datatype FriendState = Friend | FriendRequestReceived | FriendRequestSent | NotFriend

  /** `User.findOne({_id: x, friends: y})` finds a document. */
  predicate IsFriend(users: Users, x: Id, y: Id) {
    x in users && y in users[x].friends
  }

  /** `User.findOne({_id: x, "friendRequests.user": y})` finds a document. */
  predicate Received(users: Users, x: Id, y: Id) {
    x in users && HasRequestFrom(users[x].friendRequests, y)
  }

  /** `getFriendState(userId, friendId)`: three membership tests, FRIEND taking
      precedence over a received request, which takes precedence over a sent one. */
  function GetFriendState(users: Users, userId: Id, friendId: Id): (r: FriendState)
    ensures r == Friend <==> IsFriend(users, userId, friendId)
    ensures r == FriendRequestReceived <==>
      !IsFriend(users, userId, friendId) && Received(users, userId, friendId)
    ensures r == FriendRequestSent <==>
      !IsFriend(users, userId, friendId) && !Received(users, userId, friendId) && Received(users, friendId, userId)
    ensures r == NotFriend <==>
      !IsFriend(users, userId, friendId) && !Received(users, userId, friendId) && !Received(users, friendId, userId)
  {
    if IsFriend(users, userId, friendId) then Friend
    else if Received(users, userId, friendId) then FriendRequestReceived
    else if Received(users, friendId, userId) then FriendRequestSent
    else NotFriend
  }

  // ---------------------------------------------------------------------------
  // The invariant the handlers keep

  /** Friendship is mutual: `y ∈ x.friends` exactly when `x ∈ y.friends` (as sets;
      a list may hold an id more than once). */
  ghost predicate Symmetric(users: Users) {
    forall x, y :: IsFriend(users, x, y) ==> IsFriend(users, y, x)
  }

  /** Every pending request comes from an existing user. */
  ghost predicate RequestsClosed(users: Users) {
    forall x, y :: Received(users, x, y) ==> y in users
  }

  ghost predicate NoSelfRequest(users: Users) {
    forall x :: x in users ==> !HasRequestFrom(users[x].friendRequests, x)
  }

  ghost predicate NoSelfFriend(users: Users) {
    forall x :: x in users ==> x !in users[x].friends
  }

  /** A user holds at most one pending request per sender. */
  ghost predicate OneRequestPerSender(users: Users) {
    forall x, y :: x in users ==> CountFrom(users[x].friendRequests, y) <= 1
  }

  ghost predicate Valid(users: Users) {
    Symmetric(users) && RequestsClosed(users) && NoSelfRequest(users) &&
    NoSelfFriend(users) && OneRequestPerSender(users)
  }

  // ---------------------------------------------------------------------------
  // Single-document writes

  /** Replaces the `friendRequests` array of document `id`. */
  function SetRequests(users: Users, id: Id, reqs: seq<FriendRequest>): (r: Users)
    requires id in users
    ensures r.Keys == users.Keys
    ensures r[id].friendRequests == reqs && r[id].friends == users[id].friends
    ensures forall u :: u in users && u != id ==> r[u] == users[u]
  {
    users[id := users[id].(friendRequests := reqs)]
  }

  /** `$push: {friends: x}` on document `id`; a missing document is not written. */
  function PushFriend(users: Users, id: Id, x: Id): (r: Users)
    ensures r.Keys == users.Keys
    ensures id in users ==> r[id].friends == users[id].friends + [x]
    ensures id in users ==> r[id].friendRequests == users[id].friendRequests
    ensures forall u :: u in users && u != id ==> r[u] == users[u]
  {
    if id in users then users[id := users[id].(friends := users[id].friends + [x])] else users
  }

  /** `$pull: {friends: x}` on document `id`; a missing document is not written. */
  function PullFriend(users: Users, id: Id, x: Id): (r: Users)
    ensures r.Keys == users.Keys
    ensures id in users ==> r[id].friends == RemoveAll(users[id].friends, x)
    ensures id in users ==> r[id].friendRequests == users[id].friendRequests
    ensures forall u :: u in users && u != id ==> r[u] == users[u]
  {
    if id in users then users[id := users[id].(friends := RemoveAll(users[id].friends, x))] else users
  }

  // ---------------------------------------------------------------------------
  // The handlers

  /** `addFriendRequest`: `sender` asks `target` to be friends. */
  function AddFriendRequest(users: Users, senderId: Id, targetId: Id): (r: Response<Users>)
    ensures r.status in {OK, BAD_REQUEST, NOT_FOUND}
    ensures r.status != OK ==> r.state == users
    ensures r.state.Keys == users.Keys
    ensures forall u :: u in users && u != targetId ==> r.state[u] == users[u]
  {
    if senderId == targetId then Response(BAD_REQUEST, users)
    else if IsFriend(users, senderId, targetId) then Response(BAD_REQUEST, users)
    else if targetId !in users then Response(NOT_FOUND, users)
    else if HasRequestFrom(users[targetId].friendRequests, senderId) then Response(BAD_REQUEST, users)
    else
      Response(OK, SetRequests(users, targetId,
        PushRequest(users[targetId].friendRequests, FriendRequest(senderId, false))))
  }

  /** `setFriendRequestsAsViewed`: marks the first unviewed request of `userId`. */
  function SetFriendRequestsAsViewed(users: Users, ownerAuthorized: bool, userId: Id): (r: Response<Users>)
    ensures r.status == if ownerAuthorized then OK else FORBIDDEN
    ensures r.state.Keys == users.Keys
    ensures forall u :: u in users && (u != userId || !ownerAuthorized) ==> r.state[u] == users[u]
  {
    if !ownerAuthorized then Response(FORBIDDEN, users)
    else if userId in users then Response(OK, SetRequests(users, userId, MarkFirstViewed(users[userId].friendRequests)))
    else Response(OK, users)
  }

  /** `deleteFriendRequest`: `userId` rejects the requests of `senderId`. */
  function DeleteFriendRequest(users: Users, ownerAuthorized: bool, userId: Id, senderId: Id): (r: Response<Users>)
    ensures r.status == if ownerAuthorized then OK else FORBIDDEN
    ensures r.state.Keys == users.Keys
    ensures forall u :: u in users && (u != userId || !ownerAuthorized) ==> r.state[u] == users[u]
  {
    if !ownerAuthorized then Response(FORBIDDEN, users)
    else if userId in users then Response(OK, SetRequests(users, userId, PullRequests(users[userId].friendRequests, senderId)))
    else Response(OK, users)
  }

  /** `deleteSentFriendRequest`: `userId` withdraws the request it sent to `friendId`. */
  function DeleteSentFriendRequest(users: Users, ownerAuthorized: bool, userId: Id, friendId: Id): (r: Response<Users>)
    ensures r.status in {OK, FORBIDDEN, NOT_FOUND}
    ensures r.status == FORBIDDEN <==> !ownerAuthorized
    ensures r.status != OK ==> r.state == users
    ensures r.state.Keys == users.Keys
    ensures forall u :: u in users && u != friendId ==> r.state[u] == users[u]
  {
    if !ownerAuthorized then Response(FORBIDDEN, users)
    else if !Received(users, friendId, userId) then Response(NOT_FOUND, users)
    else Response(OK, SetRequests(users, friendId, PullRequests(users[friendId].friendRequests, userId)))
  }

  /** `acceptFriendRequest`: the caller accepts the request of `friendId`; the
      request is pulled, then both friend lists get the other id appended. */
  function AcceptFriendRequest(users: Users, ownerAuthorized: bool, callerId: Id, friendId: Id): (r: Response<Users>)
    ensures r.status in {OK, FORBIDDEN, NOT_FOUND}
    ensures r.status == FORBIDDEN <==> !ownerAuthorized
    ensures r.status != OK ==> r.state == users
    ensures r.state.Keys == users.Keys
    ensures forall u :: u in users && u != callerId && u != friendId ==> r.state[u] == users[u]
  {
    if !ownerAuthorized then Response(FORBIDDEN, users)
    else if !Received(users, callerId, friendId) then Response(NOT_FOUND, users)
    else
      var pulled := SetRequests(users, callerId, PullRequests(users[callerId].friendRequests, friendId));
      Response(OK, PushFriend(PushFriend(pulled, callerId, friendId), friendId, callerId))
  }

  /** `deleteFriend`: both friend lists lose every occurrence of the other id. */
  function DeleteFriend(users: Users, ownerAuthorized: bool, callerId: Id, friendId: Id): (r: Response<Users>)
    ensures r.status == if ownerAuthorized then OK else FORBIDDEN
    ensures r.state.Keys == users.Keys
    ensures forall u :: u in users && u != callerId && u != friendId ==> r.state[u] == users[u]
    ensures forall u :: u in users ==> r.state[u].friendRequests == users[u].friendRequests
  {
    if !ownerAuthorized then Response(FORBIDDEN, users)
    else Response(OK, PullFriend(PullFriend(users, callerId, friendId), friendId, callerId))
  }

  /** `friendRequestsCount` of `getUserHomeData`: the number of unviewed requests. */
  function UnviewedRequestCount(users: Users, userId: Id): (n: nat)
    ensures userId !in users ==> n == 0
    ensures userId in users ==> n <= |users[userId].friendRequests|
    ensures userId in users && (forall e :: e in users[userId].friendRequests ==> e.viewed) ==> n == 0
    ensures userId in users ==> n == |users[userId].friendRequests| - |Viewed(users[userId].friendRequests)|
  {
    if userId in users then
      var unviewed := Unviewed(users[userId].friendRequests);
      assert unviewed != [] ==> unviewed[0] in unviewed;
      FilterCounts(users[userId].friendRequests, userId);
      |unviewed|
    else 0
  }

  /** The count is 0 exactly when every request the user holds has been viewed. */
  lemma UnviewedRequestCountZero(users: Users, userId: Id)
    requires userId in users
    ensures UnviewedRequestCount(users, userId) == 0 <==> forall e :: e in users[userId].friendRequests ==> e.viewed
  {
    var u := Unviewed(users[userId].friendRequests);
    if u != [] { assert u[0] in u; }
  }

  // ---------------------------------------------------------------------------
  // Outcomes

  /** The rejection ladder of `addFriendRequest`: self, already a friend, no such
      user, already requested; any rejection leaves the users untouched. */
  lemma AddFriendRequestOutcomes(users: Users, senderId: Id, targetId: Id)
    ensures var r := AddFriendRequest(users, senderId, targetId);
      && (r.status != OK ==> r.state == users)
      && (senderId == targetId ==> r.status == BAD_REQUEST)
      && (senderId != targetId && IsFriend(users, senderId, targetId) ==> r.status == BAD_REQUEST)
      && (r.status == NOT_FOUND <==> senderId != targetId && !IsFriend(users, senderId, targetId) && targetId !in users)
      && (r.status == OK <==>
            senderId != targetId && !IsFriend(users, senderId, targetId) && targetId in users &&
            !Received(users, targetId, senderId))
      && (r.status == OK || r.status == BAD_REQUEST || r.status == NOT_FOUND)
  {
  }

  /** A successful request appends one unviewed entry from the sender to the
      target's list, puts that list in unviewed-first order, and changes nothing else. */
  lemma AddFriendRequestEffect(users: Users, senderId: Id, targetId: Id)
    requires AddFriendRequest(users, senderId, targetId).status == OK
    ensures var r := AddFriendRequest(users, senderId, targetId).state;
      && r.Keys == users.Keys
      && r[targetId].friends == users[targetId].friends
      && r[targetId].friendRequests ==
           Unviewed(users[targetId].friendRequests) + [FriendRequest(senderId, false)] + Viewed(users[targetId].friendRequests)
      && UnviewedFirst(r[targetId].friendRequests)
      && CountFrom(r[targetId].friendRequests, senderId) == 1
      && (forall x :: x != senderId ==> CountFrom(r[targetId].friendRequests, x) == CountFrom(users[targetId].friendRequests, x))
      && UnviewedRequestCount(r, targetId) == UnviewedRequestCount(users, targetId) + 1
      && (forall u :: u in users && u != targetId ==> r[u] == users[u])
  {
    var reqs := users[targetId].friendRequests;
    PushUnviewedRequest(reqs, senderId);
    PushUnviewedEffect(reqs, senderId);
    CountFromPositive(reqs, senderId);
  }

  /** Sending the same request twice: the second is rejected with 400 and writes nothing. */
  lemma SecondRequestRejected(users: Users, senderId: Id, targetId: Id)
    requires AddFriendRequest(users, senderId, targetId).status == OK
    ensures var once := AddFriendRequest(users, senderId, targetId).state;
      AddFriendRequest(once, senderId, targetId) == Response(BAD_REQUEST, once)
  {
    var once := AddFriendRequest(users, senderId, targetId).state;
    AddFriendRequestEffect(users, senderId, targetId);
    CountFromPositive(once[targetId].friendRequests, senderId);
    assert !IsFriend(once, senderId, targetId) by {
      if senderId in users && senderId != targetId {
        assert once[senderId] == users[senderId];
      }
    }
  }

  /** After a successful request the target sees FRIEND_REQUEST_RECEIVED from the sender. */
  lemma RequestVisibleToTarget(users: Users, senderId: Id, targetId: Id)
    requires Valid(users)
    requires AddFriendRequest(users, senderId, targetId).status == OK
    ensures GetFriendState(AddFriendRequest(users, senderId, targetId).state, targetId, senderId) == FriendRequestReceived
  {
    var r := AddFriendRequest(users, senderId, targetId).state;
    AddFriendRequestEffect(users, senderId, targetId);
    CountFromPositive(r[targetId].friendRequests, senderId);
    assert !IsFriend(users, targetId, senderId);
  }

  /** Only the first unviewed request is marked: the unviewed count drops by one
      when there was one, and no sender's entries appear or disappear. */
  lemma SetViewedEffect(users: Users, userId: Id)
    requires userId in users
    ensures var r := SetFriendRequestsAsViewed(users, true, userId);
      && r.status == OK
      && UnviewedRequestCount(r.state, userId) ==
           (if UnviewedRequestCount(users, userId) == 0 then 0 else UnviewedRequestCount(users, userId) - 1)
      && (forall x :: CountFrom(r.state[userId].friendRequests, x) == CountFrom(users[userId].friendRequests, x))
      && r.state[userId].friends == users[userId].friends
      && r.state.Keys == users.Keys
      && (forall u :: u in users && u != userId ==> r.state[u] == users[u])
  {
    var reqs := users[userId].friendRequests;
    forall x ensures CountFrom(MarkFirstViewed(reqs), x) == CountFrom(reqs, x) {
      SameSendersSameCounts(MarkFirstViewed(reqs), reqs, x);
    }
  }

  /** Marking leaves a second unviewed request in front of the marked one, so the
      stored list is no longer in unviewed-first order until the next push sorts it. */
  lemma SetViewedBreaksOrder(a: Id, b: Id)
    ensures var reqs := [FriendRequest(a, false), FriendRequest(b, false)];
      UnviewedFirst(reqs) && !UnviewedFirst(MarkFirstViewed(reqs))
  {
    var reqs := [FriendRequest(a, false), FriendRequest(b, false)];
    assert MarkFirstViewed(reqs) == [FriendRequest(a, true), FriendRequest(b, false)];
  }

  /** `deleteFriendRequest` always answers 200 to the owner and leaves no entry
      from the sender; the user's friends, the other senders' entries and every
      other user are untouched. */
  lemma DeleteFriendRequestEffect(users: Users, userId: Id, senderId: Id)
    ensures var r := DeleteFriendRequest(users, true, userId, senderId);
      && r.status == OK
      && r.state.Keys == users.Keys
      && !Received(r.state, userId, senderId)
      && (forall x :: x != senderId ==> (Received(r.state, userId, x) <==> Received(users, userId, x)))
      && (userId in users ==>
            && r.state[userId].friends == users[userId].friends
            && r.state[userId].friendRequests == PullRequests(users[userId].friendRequests, senderId))
      && (forall u :: u in users && u != userId ==> r.state[u] == users[u])
  {
    if userId in users {
      var reqs := users[userId].friendRequests;
      PullRequestsCounts(reqs, senderId);
      CountFromPositive(PullRequests(reqs, senderId), senderId);
      forall x | x != senderId
        ensures HasRequestFrom(PullRequests(reqs, senderId), x) <==> HasRequestFrom(reqs, x)
      {
        CountFromPositive(PullRequests(reqs, senderId), x);
        CountFromPositive(reqs, x);
      }
    }
  }

  /** `deleteSentFriendRequest` answers 404 exactly when the target held no
      request from the caller, and after a 200 it holds none. */
  lemma DeleteSentFriendRequestEffect(users: Users, userId: Id, friendId: Id)
    ensures var r := DeleteSentFriendRequest(users, true, userId, friendId);
      && (r.status == NOT_FOUND <==> !Received(users, friendId, userId))
      && (r.status == NOT_FOUND ==> r.state == users)
      && (r.status == OK || r.status == NOT_FOUND)
      && r.state.Keys == users.Keys
      && (r.status == OK ==>
            && !Received(r.state, friendId, userId)
            && r.state[friendId].friends == users[friendId].friends
            && r.state[friendId].friendRequests == PullRequests(users[friendId].friendRequests, userId)
            && (forall x :: x != userId ==>
                  CountFrom(r.state[friendId].friendRequests, x) == CountFrom(users[friendId].friendRequests, x)))
      && (forall u :: u in users && u != friendId ==> r.state[u] == users[u])
  {
    if Received(users, friendId, userId) {
      var reqs := users[friendId].friendRequests;
      PullRequestsCounts(reqs, userId);
      CountFromPositive(PullRequests(reqs, userId), userId);
    }
  }

  /** Every owner-only handler answers 403 to anyone else and writes nothing. */
  lemma OwnerOnly(users: Users, a: Id, b: Id)
    ensures SetFriendRequestsAsViewed(users, false, a) == Response(FORBIDDEN, users)
    ensures DeleteFriendRequest(users, false, a, b) == Response(FORBIDDEN, users)
    ensures DeleteSentFriendRequest(users, false, a, b) == Response(FORBIDDEN, users)
    ensures AcceptFriendRequest(users, false, a, b) == Response(FORBIDDEN, users)
    ensures DeleteFriend(users, false, a, b) == Response(FORBIDDEN, users)
  {
  }

  /** Accepting answers 404, and writes nothing, exactly when the caller holds
      no request from `friendId` (the `$pull` then modifies nothing). */
  lemma AcceptNotFound(users: Users, callerId: Id, friendId: Id)
    ensures var r := AcceptFriendRequest(users, true, callerId, friendId);
      && (r.status == NOT_FOUND <==> !Received(users, callerId, friendId))
      && (r.status == NOT_FOUND ==> r.state == users)
      && (r.status == OK || r.status == NOT_FOUND)
  {
  }

  /** A successful accept removes the request and appends each id to the
      other's friend list; every other user is untouched. */
  lemma AcceptEffect(users: Users, callerId: Id, friendId: Id)
    requires Received(users, callerId, friendId) && friendId in users && friendId != callerId
    ensures var r := AcceptFriendRequest(users, true, callerId, friendId).state;
      && r.Keys == users.Keys
      && !Received(r, callerId, friendId)
      && r[callerId].friendRequests == PullRequests(users[callerId].friendRequests, friendId)
      && r[callerId].friends == users[callerId].friends + [friendId]
      && r[friendId].friends == users[friendId].friends + [callerId]
      && (forall u :: u in users && u != callerId && u != friendId ==> r[u] == users[u])
      && (forall u :: u in users && u != callerId ==> r[u].friendRequests == users[u].friendRequests)
  {
    var reqs := users[callerId].friendRequests;
    PullRequestsCounts(reqs, friendId);
    CountFromPositive(PullRequests(reqs, friendId), friendId);
    CountFromPositive(reqs, callerId);
    var pulled := SetRequests(users, callerId, PullRequests(reqs, friendId));
    var once := PushFriend(pulled, callerId, friendId);
    var r := PushFriend(once, friendId, callerId);
    assert r[callerId] == once[callerId];
  }

  /** After an accepted request both users see each other as FRIEND. */
  lemma AcceptMakesFriends(users: Users, callerId: Id, friendId: Id)
    requires Valid(users)
    requires AcceptFriendRequest(users, true, callerId, friendId).status == OK
    ensures var r := AcceptFriendRequest(users, true, callerId, friendId).state;
      GetFriendState(r, callerId, friendId) == Friend && GetFriendState(r, friendId, callerId) == Friend
  {
    assert Received(users, callerId, friendId);
    assert friendId != callerId;
    AcceptEffect(users, callerId, friendId);
  }

  /** Unfriending always answers 200 and leaves neither id in the other's list;
      each keeps its other friends in order, and every other user is untouched. */
  lemma DeleteFriendEffect(users: Users, callerId: Id, friendId: Id)
    ensures var r := DeleteFriend(users, true, callerId, friendId);
      && r.status == OK
      && r.state.Keys == users.Keys
      && !IsFriend(r.state, callerId, friendId)
      && !IsFriend(r.state, friendId, callerId)
      && (callerId != friendId && callerId in users ==>
            r.state[callerId].friends == RemoveAll(users[callerId].friends, friendId))
      && (callerId != friendId && friendId in users ==>
            r.state[friendId].friends == RemoveAll(users[friendId].friends, callerId))
      && (callerId == friendId && callerId in users ==>
            r.state[callerId].friends == RemoveAll(users[callerId].friends, callerId))
      && (forall u :: u in users && u != callerId && u != friendId ==> r.state[u] == users[u])
      && (forall u :: u in users ==> r.state[u].friendRequests == users[u].friendRequests)
  {
  }

  /** After unfriending, each side sees NOT_FRIEND unless a request is pending. */
  lemma UnfriendedState(users: Users, callerId: Id, friendId: Id)
    ensures var r := DeleteFriend(users, true, callerId, friendId).state;
      && (!Received(users, callerId, friendId) && !Received(users, friendId, callerId) ==>
            GetFriendState(r, callerId, friendId) == NotFriend &&
            GetFriendState(r, friendId, callerId) == NotFriend)
  {
    DeleteFriendEffect(users, callerId, friendId);
  }

  // ---------------------------------------------------------------------------
  // The invariant is preserved

  /** Replacing one user's requests keeps the invariant when the new list names
      only other existing users, each at most once. */
  lemma SetRequestsValid(users: Users, id: Id, reqs: seq<FriendRequest>)
    requires Valid(users) && id in users
    requires forall y :: HasRequestFrom(reqs, y) ==> y in users && y != id
    requires forall y :: CountFrom(reqs, y) <= 1
    ensures Valid(SetRequests(users, id, reqs))
  {
    var u := SetRequests(users, id, reqs);
    forall x, y | IsFriend(u, x, y) ensures IsFriend(u, y, x) {
      assert IsFriend(users, x, y);
    }
    forall x, y | Received(u, x, y) ensures y in u {
      if x != id {
        assert Received(users, x, y);
      }
    }
    forall x | x in u ensures !HasRequestFrom(u[x].friendRequests, x) {
      if x != id {
        assert u[x] == users[x];
      }
    }
    forall x | x in u ensures x !in u[x].friends {
      assert u[x].friends == users[x].friends;
    }
    forall x, y | x in u ensures CountFrom(u[x].friendRequests, y) <= 1 {
      if x != id {
        assert u[x] == users[x];
      }
    }
  }

  lemma AddFriendRequestValid(users: Users, senderId: Id, targetId: Id)
    requires Valid(users) && senderId in users
    ensures Valid(AddFriendRequest(users, senderId, targetId).state)
  {
    if AddFriendRequest(users, senderId, targetId).status == OK {
      var reqs := users[targetId].friendRequests;
      var pushed := PushRequest(reqs, FriendRequest(senderId, false));
      PushUnviewedEffect(reqs, senderId);
      CountFromPositive(reqs, senderId);
      forall y | HasRequestFrom(pushed, y) ensures y in users && y != targetId {
        CountFromPositive(pushed, y);
        CountFromPositive(reqs, y);
        if y != senderId {
          assert Received(users, targetId, y);
        }
      }
      forall y ensures CountFrom(pushed, y) <= 1 {
        assert CountFrom(reqs, y) <= 1;
      }
      SetRequestsValid(users, targetId, pushed);
    }
  }

  lemma SetFriendRequestsAsViewedValid(users: Users, ownerAuthorized: bool, userId: Id)
    requires Valid(users)
    ensures Valid(SetFriendRequestsAsViewed(users, ownerAuthorized, userId).state)
  {
    if ownerAuthorized && userId in users {
      var reqs := users[userId].friendRequests;
      var marked := MarkFirstViewed(reqs);
      forall y ensures CountFrom(marked, y) == CountFrom(reqs, y) {
        SameSendersSameCounts(marked, reqs, y);
      }
      forall y | HasRequestFrom(marked, y) ensures y in users && y != userId {
        CountFromPositive(marked, y);
        CountFromPositive(reqs, y);
        assert Received(users, userId, y);
      }
      SetRequestsValid(users, userId, marked);
    }
  }

  /** Pulling one sender's entries from one user keeps the invariant. */
  lemma PullRequestsValid(users: Users, id: Id, sender: Id)
    requires Valid(users) && id in users
    ensures Valid(SetRequests(users, id, PullRequests(users[id].friendRequests, sender)))
  {
    var reqs := users[id].friendRequests;
    var pulled := PullRequests(reqs, sender);
    PullRequestsCounts(reqs, sender);
    forall y | HasRequestFrom(pulled, y) ensures y in users && y != id {
      CountFromPositive(pulled, y);
      CountFromPositive(reqs, y);
      assert Received(users, id, y);
    }
    forall y ensures CountFrom(pulled, y) <= 1 {
      assert CountFrom(reqs, y) <= 1;
    }
    SetRequestsValid(users, id, pulled);
  }

  lemma DeleteFriendRequestValid(users: Users, ownerAuthorized: bool, userId: Id, senderId: Id)
    requires Valid(users)
    ensures Valid(DeleteFriendRequest(users, ownerAuthorized, userId, senderId).state)
  {
    if ownerAuthorized && userId in users {
      PullRequestsValid(users, userId, senderId);
    }
  }

  lemma DeleteSentFriendRequestValid(users: Users, ownerAuthorized: bool, userId: Id, friendId: Id)
    requires Valid(users)
    ensures Valid(DeleteSentFriendRequest(users, ownerAuthorized, userId, friendId).state)
  {
    if ownerAuthorized && Received(users, friendId, userId) {
      PullRequestsValid(users, friendId, userId);
    }
  }

  /** The key property: accepting keeps friendship mutual (and the rest of the invariant). */
  lemma AcceptValid(users: Users, ownerAuthorized: bool, callerId: Id, friendId: Id)
    requires Valid(users)
    ensures Valid(AcceptFriendRequest(users, ownerAuthorized, callerId, friendId).state)
  {
    if ownerAuthorized && Received(users, callerId, friendId) {
      var pulled := SetRequests(users, callerId, PullRequests(users[callerId].friendRequests, friendId));
      PullRequestsValid(users, callerId, friendId);
      assert friendId in users && friendId != callerId;
      BefriendValid(pulled, callerId, friendId);
    }
  }

  /** Pushing each of two distinct users onto the other's friends keeps the invariant. */
  lemma BefriendValid(users: Users, a: Id, b: Id)
    requires Valid(users) && a in users && b in users && a != b
    ensures Valid(PushFriend(PushFriend(users, a, b), b, a))
  {
    var once := PushFriend(users, a, b);
    var u := PushFriend(once, b, a);
    assert u[a].friends == users[a].friends + [b];
    assert u[b].friends == users[b].friends + [a];
    assert forall x :: x in u ==> u[x].friendRequests == users[x].friendRequests;
    forall x, y | IsFriend(u, x, y) ensures IsFriend(u, y, x) {
      if !((x == a && y == b) || (x == b && y == a)) {
        assert IsFriend(users, x, y);
        assert IsFriend(users, y, x);
      }
    }
    forall x, y | Received(u, x, y) ensures y in u {
      assert Received(users, x, y);
    }
    forall x | x in u ensures x !in u[x].friends {
      assert x !in users[x].friends;
    }
  }

  /** The key property: unfriending keeps friendship mutual (and the rest of the invariant). */
  lemma DeleteFriendValid(users: Users, ownerAuthorized: bool, callerId: Id, friendId: Id)
    requires Valid(users)
    ensures Valid(DeleteFriend(users, ownerAuthorized, callerId, friendId).state)
  {
    if ownerAuthorized {
      var once := PullFriend(users, callerId, friendId);
      var u := PullFriend(once, friendId, callerId);
      PullFriendRelation(users, callerId, friendId);
      PullFriendRelation(once, friendId, callerId);
      assert Symmetric(u) by {
        forall x, y | IsFriend(u, x, y) ensures IsFriend(u, y, x) {
          assert IsFriend(users, x, y);
        }
      }
      assert RequestsClosed(u);
      assert u.Keys == users.Keys;
      assert forall x :: x in u ==> u[x].friendRequests == users[x].friendRequests;
      assert NoSelfRequest(u);
      assert OneRequestPerSender(u);
      assert NoSelfFriend(u) by {
        forall x | x in u ensures x !in u[x].friends {
          assert !IsFriend(users, x, x);
        }
      }
    }
  }

  /** One `$pull` on a friend list removes exactly that one pair from the
      friend relation and touches no request list. */
  lemma PullFriendRelation(users: Users, id: Id, x: Id)
    ensures var r := PullFriend(users, id, x);
      && (forall a, b :: IsFriend(r, a, b) <==> IsFriend(users, a, b) && !(a == id && b == x))
      && (forall a, b :: Received(r, a, b) <==> Received(users, a, b))
  {
    var r := PullFriend(users, id, x);
    forall a, b ensures IsFriend(r, a, b) <==> IsFriend(users, a, b) && !(a == id && b == x) {
      if a == id && a in users {
        assert r[a].friends == RemoveAll(users[a].friends, x);
      }
    }
    forall a, b ensures Received(r, a, b) <==> Received(users, a, b) {
      if a in users {
        assert r[a].friendRequests == users[a].friendRequests;
      }
    }
  }

  /** A new user with no friends and no requests keeps the invariant (`User.create`
      of sign-up, where both arrays take the schema's empty default). */
  lemma AddUserValid(users: Users, id: Id, u: User)
    requires Valid(users) && id !in users
    requires u.friends == [] && u.friendRequests == []
    ensures Valid(users[id := u])
  {
    var r := users[id := u];
    forall x, y | IsFriend(r, x, y) ensures IsFriend(r, y, x) {
      assert IsFriend(users, x, y);
      assert IsFriend(users, y, x);
    }
    forall x, y | Received(r, x, y) ensures y in r {
      assert Received(users, x, y);
    }
  }

  // ---------------------------------------------------------------------------
  // Crossed requests

  /** Two users who each requested the other, and each accepted: `$push` (not a
      set-add) leaves both ids twice in each list. Friendship stays mutual. */
  lemma CrossedRequestsDuplicateFriends(a: Id, b: Id, ua: User, ub: User)
    requires a != b
    requires ua.friends == [] && ub.friends == []
    requires ua.friendRequests == [FriendRequest(b, false)] && ub.friendRequests == [FriendRequest(a, false)]
    ensures var users := map[a := ua, b := ub];
      var s1 := AcceptFriendRequest(users, true, b, a);
      var s2 := AcceptFriendRequest(s1.state, true, a, b);
      && s1.status == OK && s2.status == OK
      && s2.state[a].friends == [b, b] && s2.state[b].friends == [a, a]
  {
    var users := map[a := ua, b := ub];
    assert Received(users, b, a) by { assert ub.friendRequests[0].user == a; }
    AcceptEffect(users, b, a);
    var s1 := AcceptFriendRequest(users, true, b, a).state;
    assert s1[a].friendRequests == ua.friendRequests;
    assert Received(s1, a, b) by { assert s1[a].friendRequests[0].user == b; }
    AcceptEffect(s1, a, b);
  }
}
