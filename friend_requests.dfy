/** A user's `friendRequests` array and the array updates the friend handlers
    issue on it: the `$push ... $sort: {viewed: 1}` of a new request, the
    `$pull` of a sender's entries and the positional `$set` of the first
    unviewed entry. */
module FriendRequests {
  import opened Common
  import opened Records

  /** Some entry of `reqs` comes from `sender` (the query `"friendRequests.user": sender`). */
  predicate HasRequestFrom(reqs: seq<FriendRequest>, sender: Id) {
    exists i :: 0 <= i < |reqs| && reqs[i].user == sender
  }

  /** How many entries of `reqs` come from `sender`. */
  function CountFrom(reqs: seq<FriendRequest>, sender: Id): nat {
    if reqs == [] then 0
    else (if reqs[0].user == sender then 1 else 0) + CountFrom(reqs[1..], sender)
  }

  lemma {:induction false} CountFromPositive(reqs: seq<FriendRequest>, sender: Id)
    ensures CountFrom(reqs, sender) > 0 <==> HasRequestFrom(reqs, sender)
  {
    if reqs != [] {
      CountFromPositive(reqs[1..], sender);
      if HasRequestFrom(reqs, sender) && reqs[0].user != sender {
        var i :| 0 <= i < |reqs| && reqs[i].user == sender;
        assert reqs[1..][i - 1].user == sender;
      }
      if HasRequestFrom(reqs[1..], sender) {
        var i :| 0 <= i < |reqs[1..]| && reqs[1..][i].user == sender;
        assert reqs[i + 1].user == sender;
      }
    }
  }

  lemma {:induction false} CountFromAppend(a: seq<FriendRequest>, b: seq<FriendRequest>, sender: Id)
    ensures CountFrom(a + b, sender) == CountFrom(a, sender) + CountFrom(b, sender)
  {
    if a != [] {
      assert (a + b)[0] == a[0];
      assert (a + b)[1..] == a[1..] + b;
      CountFromAppend(a[1..], b, sender);
    } else {
      assert a + b == b;
    }
  }

  /** The entries not yet viewed, in their order (`$filter` on `viewed == false`). */
  function Unviewed(reqs: seq<FriendRequest>): (r: seq<FriendRequest>)
    ensures forall e :: e in r <==> e in reqs && !e.viewed
    ensures |r| <= |reqs|
  {
    if reqs == [] then []
    else (if !reqs[0].viewed then [reqs[0]] else []) + Unviewed(reqs[1..])
  }

  /** The entries already viewed, in their order. */
  function Viewed(reqs: seq<FriendRequest>): (r: seq<FriendRequest>)
    ensures forall e :: e in r <==> e in reqs && e.viewed
    ensures |r| <= |reqs|
  {
    if reqs == [] then []
    else (if reqs[0].viewed then [reqs[0]] else []) + Viewed(reqs[1..])
  }

  lemma {:induction false} FilterAppend(a: seq<FriendRequest>, b: seq<FriendRequest>)
    ensures Unviewed(a + b) == Unviewed(a) + Unviewed(b)
    ensures Viewed(a + b) == Viewed(a) + Viewed(b)
  {
    if a != [] {
      assert (a + b)[0] == a[0];
      assert (a + b)[1..] == a[1..] + b;
      FilterAppend(a[1..], b);
    } else {
      assert a + b == b;
    }
  }

  lemma {:induction false} FilterCounts(reqs: seq<FriendRequest>, sender: Id)
    ensures CountFrom(Unviewed(reqs), sender) + CountFrom(Viewed(reqs), sender) == CountFrom(reqs, sender)
    ensures |Unviewed(reqs)| + |Viewed(reqs)| == |reqs|
  {
    if reqs != [] {
      FilterCounts(reqs[1..], sender);
      var h := if !reqs[0].viewed then [reqs[0]] else [];
      var g := if reqs[0].viewed then [reqs[0]] else [];
      CountFromAppend(h, Unviewed(reqs[1..]), sender);
      CountFromAppend(g, Viewed(reqs[1..]), sender);
    }
  }

  /** Unviewed entries come before viewed ones. */
  predicate UnviewedFirst(reqs: seq<FriendRequest>) {
    forall i, j :: 0 <= i < j < |reqs| && reqs[i].viewed ==> reqs[j].viewed
  }

  /** `$sort: {viewed: 1}` as a stable sort: unviewed entries, then viewed ones,
      each group in its previous order. */
  function SortByViewed(reqs: seq<FriendRequest>): seq<FriendRequest> {
    Unviewed(reqs) + Viewed(reqs)
  }

  /** The sort puts the list in unviewed-first order and keeps every entry. */
  lemma SortByViewedSorts(reqs: seq<FriendRequest>)
    ensures UnviewedFirst(SortByViewed(reqs))
    ensures |SortByViewed(reqs)| == |reqs|
    ensures forall x :: CountFrom(SortByViewed(reqs), x) == CountFrom(reqs, x)
  {
    var u, v := Unviewed(reqs), Viewed(reqs);
    var s := u + v;
    assert forall k :: 0 <= k < |u| ==> s[k] == u[k] && s[k] in u;
    assert forall k :: |u| <= k < |s| ==> s[k] == v[k - |u|] && s[k] in v;
    assert UnviewedFirst(s);
    forall x ensures CountFrom(s, x) == CountFrom(reqs, x) {
      CountFromAppend(u, v, x);
      FilterCounts(reqs, x);
    }
    FilterCounts(reqs, 0);
  }

  /** `$push: {friendRequests: {$each: [entry], $sort: {viewed: 1}}}`. */
  function PushRequest(reqs: seq<FriendRequest>, entry: FriendRequest): seq<FriendRequest> {
    SortByViewed(reqs + [entry])
  }

  /** A new unviewed request lands after the other unviewed ones and before every viewed one. */
  lemma PushUnviewedRequest(reqs: seq<FriendRequest>, sender: Id)
    ensures PushRequest(reqs, FriendRequest(sender, false))
         == Unviewed(reqs) + [FriendRequest(sender, false)] + Viewed(reqs)
  {
    var e := FriendRequest(sender, false);
    FilterAppend(reqs, [e]);
    assert Unviewed([e]) == [e] && Viewed([e]) == [];
  }

  /** Pushing an unviewed request from `sender`: the list stays in unviewed-first
      order, gains exactly one entry from `sender` and one unviewed entry. */
  lemma PushUnviewedEffect(reqs: seq<FriendRequest>, sender: Id)
    ensures UnviewedFirst(PushRequest(reqs, FriendRequest(sender, false)))
    ensures forall x :: CountFrom(PushRequest(reqs, FriendRequest(sender, false)), x)
                        == CountFrom(reqs, x) + (if x == sender then 1 else 0)
    ensures |Unviewed(PushRequest(reqs, FriendRequest(sender, false)))| == |Unviewed(reqs)| + 1
  {
    var e := FriendRequest(sender, false);
    SortByViewedSorts(reqs + [e]);
    forall x ensures CountFrom(PushRequest(reqs, e), x) == CountFrom(reqs, x) + (if x == sender then 1 else 0) {
      CountFromAppend(reqs, [e], x);
    }
    PushUnviewedRequest(reqs, sender);
    FilterAppend(Unviewed(reqs), [e]);
    UnviewedIdempotent(reqs);
    FilterAppend(Unviewed(reqs) + [e], Viewed(reqs));
    ViewedHasNoUnviewed(reqs);
  }

  lemma {:induction false} UnviewedIdempotent(reqs: seq<FriendRequest>)
    ensures Unviewed(Unviewed(reqs)) == Unviewed(reqs)
  {
    if reqs != [] {
      UnviewedIdempotent(reqs[1..]);
      var h := if !reqs[0].viewed then [reqs[0]] else [];
      FilterAppend(h, Unviewed(reqs[1..]));
    }
  }

  lemma {:induction false} ViewedHasNoUnviewed(reqs: seq<FriendRequest>)
    ensures Unviewed(Viewed(reqs)) == []
  {
    if reqs != [] {
      ViewedHasNoUnviewed(reqs[1..]);
      var h := if reqs[0].viewed then [reqs[0]] else [];
      FilterAppend(h, Viewed(reqs[1..]));
    }
  }

  /** `$pull: {friendRequests: {user: sender}}`. */
  function PullRequests(reqs: seq<FriendRequest>, sender: Id): (r: seq<FriendRequest>)
    ensures forall e :: e in r <==> e in reqs && e.user != sender
    ensures |r| <= |reqs|
  {
    if reqs == [] then []
    else if reqs[0].user == sender then PullRequests(reqs[1..], sender)
    else [reqs[0]] + PullRequests(reqs[1..], sender)
  }

  /** Pulling a sender removes exactly that sender's entries; it changes the
      list (Mongo's `modifiedCount` is 1) exactly when there was one. */
  lemma PullRequestsCounts(reqs: seq<FriendRequest>, sender: Id)
    ensures forall x :: CountFrom(PullRequests(reqs, sender), x) == if x == sender then 0 else CountFrom(reqs, x)
    ensures PullRequests(reqs, sender) == reqs <==> !HasRequestFrom(reqs, sender)
    ensures |Unviewed(PullRequests(reqs, sender))| <= |Unviewed(reqs)|
  {
    forall x ensures CountFrom(PullRequests(reqs, sender), x) == if x == sender then 0 else CountFrom(reqs, x) {
      PullCount(reqs, sender, x);
    }
    PullUnchanged(reqs, sender);
    PullUnviewed(reqs, sender);
  }

  lemma {:induction false} PullCount(reqs: seq<FriendRequest>, sender: Id, x: Id)
    ensures CountFrom(PullRequests(reqs, sender), x) == if x == sender then 0 else CountFrom(reqs, x)
  {
    if reqs != [] {
      PullCount(reqs[1..], sender, x);
      if reqs[0].user != sender {
        CountFromAppend([reqs[0]], PullRequests(reqs[1..], sender), x);
      }
    }
  }

  lemma {:induction false} PullUnchanged(reqs: seq<FriendRequest>, sender: Id)
    ensures PullRequests(reqs, sender) == reqs <==> !HasRequestFrom(reqs, sender)
  {
    if reqs != [] {
      PullUnchanged(reqs[1..], sender);
      var tail := PullRequests(reqs[1..], sender);
      if reqs[0].user != sender {
        assert ([reqs[0]] + tail)[1..] == tail;
        if HasRequestFrom(reqs[1..], sender) {
          var i :| 0 <= i < |reqs[1..]| && reqs[1..][i].user == sender;
          assert reqs[i + 1].user == sender;
        }
        if HasRequestFrom(reqs, sender) {
          var i :| 0 <= i < |reqs| && reqs[i].user == sender;
          assert reqs[1..][i - 1].user == sender;
        }
      } else {
        assert |tail| < |reqs|;
      }
    }
  }

  lemma {:induction false} PullUnviewed(reqs: seq<FriendRequest>, sender: Id)
    ensures |Unviewed(PullRequests(reqs, sender))| <= |Unviewed(reqs)|
  {
    if reqs != [] {
      PullUnviewed(reqs[1..], sender);
      var tail := PullRequests(reqs[1..], sender);
      if reqs[0].user != sender {
        assert ([reqs[0]] + tail)[1..] == tail;
        assert Unviewed([reqs[0]] + tail) == (if !reqs[0].viewed then [reqs[0]] else []) + Unviewed(tail);
      }
    }
  }


  /** The positional update `$set: {"friendRequests.$.viewed": true}` on the
      first entry that matches `viewed: false`. */
  function MarkFirstViewed(reqs: seq<FriendRequest>): (r: seq<FriendRequest>)
    ensures |r| == |reqs|
    ensures forall i :: 0 <= i < |r| ==> r[i].user == reqs[i].user
    ensures |Unviewed(r)| == if |Unviewed(reqs)| == 0 then 0 else |Unviewed(reqs)| - 1
  {
    if reqs == [] then []
    else if !reqs[0].viewed then [reqs[0].(viewed := true)] + reqs[1..]
    else
      var tail := MarkFirstViewed(reqs[1..]);
      assert ([reqs[0]] + tail)[1..] == tail;
      [reqs[0]] + tail
  }

  /** Only the first unviewed entry is flipped: every entry before it was already
      viewed and every entry after it keeps its flag. */
  lemma {:induction false} MarkFirstViewedOnlyFirst(reqs: seq<FriendRequest>, k: nat)
    requires k < |reqs| && !reqs[k].viewed
    requires forall i :: 0 <= i < k ==> reqs[i].viewed
    ensures MarkFirstViewed(reqs) == reqs[k := reqs[k].(viewed := true)]
  {
    if k > 0 {
      MarkFirstViewedOnlyFirst(reqs[1..], k - 1);
      assert reqs[1..][k - 1 := reqs[k].(viewed := true)] == reqs[k := reqs[k].(viewed := true)][1..];
    }
  }

  /** Entries keep their senders, so per-sender counts do not move. */
  lemma {:induction false} SameSendersSameCounts(a: seq<FriendRequest>, b: seq<FriendRequest>, x: Id)
    requires |a| == |b| && forall i :: 0 <= i < |a| ==> a[i].user == b[i].user
    ensures CountFrom(a, x) == CountFrom(b, x)
  {
    if a != [] {
      SameSendersSameCounts(a[1..], b[1..], x);
    }
  }
}
