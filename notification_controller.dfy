/** `notificationController`: the caller's notifications newest first, and the
    bulk update that marks them all as viewed; also the `notificationsCount`
    of `getUserHomeData`. The collection is kept in insertion order, and a
    notification is identified by its position. */
module NotificationController {
  import opened Common
  import opened Records
  import opened Ranking

  /** The caller's notifications by position, keyed by creation time. */
  function CreatedAtOf(ns: seq<Notification>, userId: Id): (keys: map<Id, nat>)
    ensures forall i: nat :: i in keys <==> i < |ns| && ns[i].userId == userId
  {
    map i | 0 <= i < |ns| && ns[i].userId == userId :: ns[i].createdAt
  }

  /** `Notification.find({userId}).sort({createdAt: -1})`: newest first; two
      notifications created at the same instant keep insertion order. */
  function GetNotifications(ns: seq<Notification>, userId: Id): (r: seq<Notification>)
    ensures var order := Rank(CreatedAtOf(ns, userId));
      |r| == |order| && forall k :: 0 <= k < |r| ==> order[k] < |ns| && r[k] == ns[order[k]]
  {
    OrderInRange(ns, userId);
    Pick(ns, Rank(CreatedAtOf(ns, userId)))
  }

  /** The notifications at the given positions, in that order. */
  function Pick(ns: seq<Notification>, order: seq<nat>): (r: seq<Notification>)
    requires forall k :: 0 <= k < |order| ==> order[k] < |ns|
    ensures |r| == |order| && forall k :: 0 <= k < |r| ==> r[k] == ns[order[k]]
  {
    seq(|order|, k requires 0 <= k < |order| => ns[order[k]])
  }

  /** `updateMany({userId, viewed: false}, {viewed: true})`. */
  function SetNotificationsAsViewed(ns: seq<Notification>, userId: Id): (r: seq<Notification>)
    ensures |r| == |ns|
    ensures forall i :: 0 <= i < |ns| ==>
      r[i] == if ns[i].userId == userId then ns[i].(viewed := true) else ns[i]
  {
    seq(|ns|, i requires 0 <= i < |ns| => if ns[i].userId == userId && !ns[i].viewed then ns[i].(viewed := true) else ns[i])
  }

  /** `notificationsCount`: the caller's notifications not yet viewed. */
  function UnviewedCount(ns: seq<Notification>, userId: Id): (n: nat)
    ensures n <= |ns|
  {
    if ns == [] then 0
    else (if ns[0].userId == userId && !ns[0].viewed then 1 else 0) + UnviewedCount(ns[1..], userId)
  }

  /** The count is zero exactly when every notification of the user is viewed. */
  lemma {:induction false} UnviewedCountZero(ns: seq<Notification>, userId: Id)
    ensures UnviewedCount(ns, userId) == 0 <==> forall i :: 0 <= i < |ns| && ns[i].userId == userId ==> ns[i].viewed
  {
    if ns != [] {
      UnviewedCountZero(ns[1..], userId);
      assert forall i :: 1 <= i < |ns| ==> ns[i] == ns[1..][i - 1];
    }
  }

  /** The ranked positions are positions of the caller's notifications. */
  lemma OrderInRange(ns: seq<Notification>, userId: Id)
    ensures var order := Rank(CreatedAtOf(ns, userId));
      forall k :: 0 <= k < |order| ==> order[k] < |ns| && ns[order[k]].userId == userId
  {
    var keys := CreatedAtOf(ns, userId);
    RankElems(keys);
  }

  // ---------------------------------------------------------------------------

  /** The listing holds only the caller's notifications, newest first. */
  lemma GetNotificationsOrdered(ns: seq<Notification>, userId: Id)
    ensures var r := GetNotifications(ns, userId);
      && (forall k :: 0 <= k < |r| ==> r[k].userId == userId)
      && (forall k, m :: 0 <= k < m < |r| ==> r[k].createdAt >= r[m].createdAt)
  {
    var keys := CreatedAtOf(ns, userId);
    var order := Rank(keys);
    RankElems(keys);
    var r := GetNotifications(ns, userId);
    forall k, m | 0 <= k < m < |r| ensures r[k].createdAt >= r[m].createdAt {
      assert Before(keys, order[k], order[m]);
    }
  }

  /** Every notification of the caller is listed, and each exactly once. */
  lemma GetNotificationsComplete(ns: seq<Notification>, userId: Id)
    ensures var r := GetNotifications(ns, userId);
      && (forall i :: 0 <= i < |ns| && ns[i].userId == userId ==> ns[i] in r)
      && |r| == |set i | 0 <= i < |ns| && ns[i].userId == userId|
  {
    var keys := CreatedAtOf(ns, userId);
    var order := Rank(keys);
    var r := GetNotifications(ns, userId);
    forall i | 0 <= i < |ns| && ns[i].userId == userId ensures ns[i] in r {
      assert i in keys;
      var k :| 0 <= k < |order| && order[k] == i;
      assert r[k] == ns[i];
    }
    assert keys.Keys == set i | 0 <= i < |ns| && ns[i].userId == userId;
  }

  /** Other users' notifications are untouched and nothing is added or removed. */
  lemma SetViewedOthersUnchanged(ns: seq<Notification>, userId: Id)
    ensures var r := SetNotificationsAsViewed(ns, userId);
      && |r| == |ns|
      && (forall i :: 0 <= i < |ns| && ns[i].userId != userId ==> r[i] == ns[i])
      && (forall i :: 0 <= i < |ns| ==>
            r[i].userId == ns[i].userId && r[i].links == ns[i].links &&
            r[i].content == ns[i].content && r[i].createdAt == ns[i].createdAt)
  {
  }

  /** Marking twice is marking once. */
  lemma SetViewedIdempotent(ns: seq<Notification>, userId: Id)
    ensures SetNotificationsAsViewed(SetNotificationsAsViewed(ns, userId), userId) == SetNotificationsAsViewed(ns, userId)
  {
  }

  /** Every notification of the caller is viewed afterwards, not only the first. */
  lemma {:induction false} SetViewedClearsCount(ns: seq<Notification>, userId: Id)
    ensures UnviewedCount(SetNotificationsAsViewed(ns, userId), userId) == 0
  {
    if ns != [] {
      SetViewedClearsCount(ns[1..], userId);
      assert SetNotificationsAsViewed(ns, userId)[1..] == SetNotificationsAsViewed(ns[1..], userId);
    }
  }

  /** Another user's unviewed count is not affected. */
  lemma {:induction false} SetViewedKeepsOtherCounts(ns: seq<Notification>, userId: Id, other: Id)
    requires other != userId
    ensures UnviewedCount(SetNotificationsAsViewed(ns, userId), other) == UnviewedCount(ns, other)
  {
    if ns != [] {
      SetViewedKeepsOtherCounts(ns[1..], userId, other);
      assert SetNotificationsAsViewed(ns, userId)[1..] == SetNotificationsAsViewed(ns[1..], userId);
    }
  }

  /** A new unviewed notification raises its recipient's count by one and nobody else's. */
  lemma {:induction false} UnviewedCountAppend(ns: seq<Notification>, n: Notification, userId: Id)
    ensures UnviewedCount(ns + [n], userId) == UnviewedCount(ns, userId) + (if n.userId == userId && !n.viewed then 1 else 0)
  {
    if ns == [] {
      assert [n][1..] == [];
    } else {
      UnviewedCountAppend(ns[1..], n, userId);
      assert (ns + [n])[1..] == ns[1..] + [n];
    }
  }
}
