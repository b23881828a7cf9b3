/** `getFriendRecommendation`: every other user whose friend list does not hold
    the subject, scored by the friends they share with the subject, ranked by
    score descending and id ascending, and cut to one page. */
module Recommendation {
  import opened Common
  import opened Records
  import opened Ranking
  import opened FriendGraph

  datatype Recommendation = Recommendation(
    id: Id,
    firstName: string,
    lastName: string,
    mutualFriends: nat,
    friendState: FriendState)

  /** How many positions of `s` hold `x`. */
  function Occurrences(s: seq<Id>, x: Id): nat {
    if s == [] then 0 else (if s[0] == x then 1 else 0) + Occurrences(s[1..], x)
  }

  /** The pairs (a friend of the candidate, a friend of the subject) holding the
      same id: what the two `$unwind`s, the `$eq` test and the `$sum` count. */
  function PairCount(a: seq<Id>, b: seq<Id>): nat {
    if a == [] then 0 else Occurrences(b, a[0]) + PairCount(a[1..], b)
  }

  lemma {:induction false} OccurrencesNoDup(s: seq<Id>, x: Id)
    requires NoDup(s)
    ensures Occurrences(s, x) == if x in s then 1 else 0
  {
    if s != [] {
      assert NoDup(s[1..]);
      OccurrencesNoDup(s[1..], x);
      assert s[0] !in s[1..];
      assert x in s <==> x == s[0] || x in s[1..];
    }
  }

  /** Over friend lists without repeated ids, the score is the number of
      friends the two users share. */
  lemma {:induction false} PairCountIsSharedFriends(a: seq<Id>, b: seq<Id>)
    requires NoDup(a) && NoDup(b)
    ensures PairCount(a, b) == |Elems(a) * Elems(b)|
  {
    if a == [] {
      assert Elems(a) == {};
    } else {
      assert NoDup(a[1..]);
      PairCountIsSharedFriends(a[1..], b);
      OccurrencesNoDup(b, a[0]);
      ElemsCons(a);
      assert a[0] !in Elems(a[1..]);
      InterCons(a[0], Elems(a[1..]), Elems(b));
    }
  }

  lemma ElemsCons(a: seq<Id>)
    requires a != []
    ensures Elems(a) == {a[0]} + Elems(a[1..])
  {
    assert forall x :: x in a <==> x == a[0] || x in a[1..];
  }

  /** Adding a new element to one side adds at most it to the intersection. */
  lemma InterCons(x: Id, xs: set<Id>, ys: set<Id>)
    requires x !in xs
    ensures |({x} + xs) * ys| == |xs * ys| + (if x in ys then 1 else 0)
  {
    var head := {x} * ys;
    assert ({x} + xs) * ys == head + xs * ys;
    assert head * (xs * ys) == {};
    if x in ys { assert head == {x}; } else { assert head == {}; }
  }

  /** A repeated id (two accepted crossed requests) is counted once per pair. */
  lemma RepeatedFriendCountsTwice(f: Id)
    ensures PairCount([f, f], [f]) == 2
  {
    assert Occurrences([f], f) == 1;
    assert [f, f][1..] == [f];
    assert PairCount([f], [f]) == 1;
  }

  /** The users that pass the pipeline's two `$match` stages. */
  predicate IsCandidate(users: Users, subjectId: Id, c: Id) {
    c in users && c != subjectId && subjectId !in users[c].friends
  }

  /** Every candidate with its score. */
  function Scores(users: Users, subjectId: Id): (m: map<Id, nat>)
    requires subjectId in users
    ensures forall c :: c in m <==> IsCandidate(users, subjectId, c)
    ensures forall c :: c in m ==> c in users && m[c] == PairCount(users[c].friends, users[subjectId].friends)
  {
    map c | c in users && c != subjectId && subjectId !in users[c].friends
      :: PairCount(users[c].friends, users[subjectId].friends)
  }

  /** Every candidate, best first. */
  function RankedCandidates(users: Users, subjectId: Id): seq<Id>
    requires subjectId in users
  {
    Rank(Scores(users, subjectId))
  }

  /** The ids on the page `[skip, skip + limit)` of the ranking. */
  function Page(users: Users, subjectId: Id, skip: nat, limit: nat): (ids: seq<Id>)
    requires subjectId in users
    ensures forall i :: 0 <= i < |ids| ==> IsCandidate(users, subjectId, ids[i])
  {
    RankElems(Scores(users, subjectId));
    Window(RankedCandidates(users, subjectId), skip, limit)
  }

  function Describe(users: Users, viewerId: Id, subjectId: Id, c: Id): Recommendation
    requires subjectId in users && c in users
  {
    Recommendation(c, users[c].firstName, users[c].lastName,
      PairCount(users[c].friends, users[subjectId].friends),
      GetFriendState(users, viewerId, c))
  }

  /** The `$project` and the friend-state mapping over a page of ids. */
  function DescribeAll(users: Users, viewerId: Id, subjectId: Id, ids: seq<Id>): (r: seq<Recommendation>)
    requires subjectId in users && forall i :: 0 <= i < |ids| ==> ids[i] in users
    ensures |r| == |ids| && forall i :: 0 <= i < |ids| ==> r[i] == Describe(users, viewerId, subjectId, ids[i])
  {
    seq(|ids|, i requires 0 <= i < |ids| => Describe(users, viewerId, subjectId, ids[i]))
  }

  /** The handler: 403 unless the caller owns the route; an unknown subject
      matches nothing and yields an empty page. */
  function GetFriendRecommendation(users: Users, ownerAuthorized: bool, viewerId: Id, subjectId: Id,
                                   skip: nat, limit: nat): (r: Response<seq<Recommendation>>)
    ensures r.status == if ownerAuthorized then OK else FORBIDDEN
    ensures |r.state| <= limit
    ensures !ownerAuthorized || subjectId !in users ==> r.state == []
    ensures forall i :: 0 <= i < |r.state| ==> IsCandidate(users, subjectId, r.state[i].id)
  {
    if !ownerAuthorized then Response(FORBIDDEN, [])
    else if subjectId !in users then Response(OK, [])
    else Response(OK, DescribeAll(users, viewerId, subjectId, Page(users, subjectId, skip, limit)))
  }

  // ---------------------------------------------------------------------------

  /** Every recommendation is a candidate, with its score, its names and the
      viewer's friend state towards it; the page has the window's length. */
  lemma RecommendationSound(users: Users, viewerId: Id, subjectId: Id, skip: nat, limit: nat)
    requires subjectId in users
    ensures var r := GetFriendRecommendation(users, true, viewerId, subjectId, skip, limit);
      var n := |Scores(users, subjectId)|;
      && r.status == OK
      && |r.state| == (if skip >= n then 0 else Min(n - skip, limit))
    ensures var recs := GetFriendRecommendation(users, true, viewerId, subjectId, skip, limit).state;
      forall i :: 0 <= i < |recs| ==>
        var rec := recs[i];
        && IsCandidate(users, subjectId, rec.id)
        && rec.mutualFriends == PairCount(users[rec.id].friends, users[subjectId].friends)
        && rec.firstName == users[rec.id].firstName && rec.lastName == users[rec.id].lastName
        && rec.friendState == GetFriendState(users, viewerId, rec.id)
  {
    var ids := Page(users, subjectId, skip, limit);
    var recs := DescribeAll(users, viewerId, subjectId, ids);
    assert GetFriendRecommendation(users, true, viewerId, subjectId, skip, limit).state == recs;
  }

  /** The page is ordered by score descending, then id ascending; no id repeats. */
  lemma RecommendationOrdered(users: Users, viewerId: Id, subjectId: Id, skip: nat, limit: nat)
    requires subjectId in users
    ensures var recs := GetFriendRecommendation(users, true, viewerId, subjectId, skip, limit).state;
      forall i, j :: 0 <= i < j < |recs| ==>
        recs[i].mutualFriends > recs[j].mutualFriends ||
        (recs[i].mutualFriends == recs[j].mutualFriends && recs[i].id < recs[j].id)
  {
    var ids := Page(users, subjectId, skip, limit);
    var scores := Scores(users, subjectId);
    PageOrdered(users, subjectId, skip, limit);
    var recs := DescribeAll(users, viewerId, subjectId, ids);
    forall i, j | 0 <= i < j < |recs|
      ensures recs[i].mutualFriends > recs[j].mutualFriends ||
              (recs[i].mutualFriends == recs[j].mutualFriends && recs[i].id < recs[j].id)
    {
      assert Before(scores, ids[i], ids[j]);
      assert recs[i] == Describe(users, viewerId, subjectId, ids[i]);
      assert recs[j] == Describe(users, viewerId, subjectId, ids[j]);
    }
  }

  /** The page lists the candidates in ranking order. */
  lemma PageOrdered(users: Users, subjectId: Id, skip: nat, limit: nat)
    requires subjectId in users
    ensures var ids := Page(users, subjectId, skip, limit);
      forall i, j :: 0 <= i < j < |ids| ==>
        && ids[i] in Scores(users, subjectId)
        && ids[j] in Scores(users, subjectId)
        && Before(Scores(users, subjectId), ids[i], ids[j])
  {
    var all := RankedCandidates(users, subjectId);
    var ids := Page(users, subjectId, skip, limit);
    forall i, j | 0 <= i < j < |ids|
      ensures ids[i] in Scores(users, subjectId) && ids[j] in Scores(users, subjectId)
      ensures Before(Scores(users, subjectId), ids[i], ids[j])
    {
      assert ids[i] == all[skip + i] && ids[j] == all[skip + j];
    }
  }

  /** A page wide enough for every candidate lists each of them (the isolated
      user of the tests included, with a score of 0). */
  lemma RecommendationComplete(users: Users, viewerId: Id, subjectId: Id, limit: nat, c: Id)
    requires subjectId in users
    requires limit >= |users|
    requires IsCandidate(users, subjectId, c)
    ensures var recs := GetFriendRecommendation(users, true, viewerId, subjectId, 0, limit).state;
      exists i :: 0 <= i < |recs| && recs[i].id == c
  {
    var scores := Scores(users, subjectId);
    var all := RankedCandidates(users, subjectId);
    assert scores.Keys <= users.Keys;
    assert |scores| <= |users| by { SubsetCard(scores.Keys, users.Keys); }
    assert Window(all, 0, limit) == all;
    var k :| 0 <= k < |all| && all[k] == c;
    var recs := GetFriendRecommendation(users, true, viewerId, subjectId, 0, limit).state;
    assert recs[k].id == c;
  }

  /** With mutual friendship, the subject and the subject's friends are never recommended. */
  lemma RecommendationExcludesFriends(users: Users, viewerId: Id, subjectId: Id, skip: nat, limit: nat)
    requires subjectId in users && Symmetric(users)
    ensures var recs := GetFriendRecommendation(users, true, viewerId, subjectId, skip, limit).state;
      forall i :: 0 <= i < |recs| ==> recs[i].id != subjectId && recs[i].id !in users[subjectId].friends
  {
    var recs := GetFriendRecommendation(users, true, viewerId, subjectId, skip, limit).state;
    forall i | 0 <= i < |recs| ensures recs[i].id != subjectId && recs[i].id !in users[subjectId].friends {
      CandidateNotFriend(users, subjectId, recs[i].id);
    }
  }

  /** With symmetric friend lists, a candidate is not on the subject's list either. */
  lemma CandidateNotFriend(users: Users, subjectId: Id, c: Id)
    requires subjectId in users && Symmetric(users) && IsCandidate(users, subjectId, c)
    ensures c != subjectId && c !in users[subjectId].friends
  {
    assert IsFriend(users, subjectId, c) ==> IsFriend(users, c, subjectId);
  }

  /** Of two candidates, the one sharing more friends comes first in the full listing. */
  lemma MoreMutualFriendsFirst(users: Users, subjectId: Id, a: Id, b: Id)
    requires subjectId in users
    requires IsCandidate(users, subjectId, a) && IsCandidate(users, subjectId, b)
    requires PairCount(users[a].friends, users[subjectId].friends) > PairCount(users[b].friends, users[subjectId].friends)
    ensures var all := RankedCandidates(users, subjectId);
      exists i, j :: 0 <= i < j < |all| && all[i] == a && all[j] == b
  {
    var scores := Scores(users, subjectId);
    assert scores[a] > scores[b];
    LargerKeyFirst(scores, a, b);
    assert RankedCandidates(users, subjectId) == Rank(scores);
  }

  lemma DescribeAllAppend(users: Users, viewerId: Id, subjectId: Id, p: seq<Id>, q: seq<Id>)
    requires subjectId in users
    requires forall i :: 0 <= i < |p| ==> p[i] in users
    requires forall i :: 0 <= i < |q| ==> q[i] in users
    ensures forall i :: 0 <= i < |p + q| ==> (p + q)[i] in users
    ensures DescribeAll(users, viewerId, subjectId, p) + DescribeAll(users, viewerId, subjectId, q)
         == DescribeAll(users, viewerId, subjectId, p + q)
  {
    assert forall i :: 0 <= i < |p + q| ==> (p + q)[i] == if i < |p| then p[i] else q[i - |p|];
  }

  /** Consecutive pages of the recommendation tile the full ranking. */
  lemma RecommendationPages(users: Users, viewerId: Id, subjectId: Id, skip: nat, a: nat, b: nat)
    requires subjectId in users
    ensures GetFriendRecommendation(users, true, viewerId, subjectId, skip, a).state +
            GetFriendRecommendation(users, true, viewerId, subjectId, skip + a, b).state ==
            GetFriendRecommendation(users, true, viewerId, subjectId, skip, a + b).state
  {
    ConsecutivePages(RankedCandidates(users, subjectId), skip, a, b);
    DescribeAllAppend(users, viewerId, subjectId, Page(users, subjectId, skip, a), Page(users, subjectId, skip + a, b));
  }

  /** Without the owner flag the handler answers 403 with no recommendation. */
  lemma RecommendationForbidden(users: Users, viewerId: Id, subjectId: Id, skip: nat, limit: nat)
    ensures GetFriendRecommendation(users, false, viewerId, subjectId, skip, limit) == Response(FORBIDDEN, [])
  {
  }
}
