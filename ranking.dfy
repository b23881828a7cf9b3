/** The `$sort` stages of the queries: documents keyed by id, ordered by a
    numeric key descending and then by id ascending (the recommendation's
    `{mutualFriends: -1, _id: 1}`; `{createdAt: -1}` with ties broken by id). */
module Ranking {
  import opened Common

  /** `a` comes before `b`: a larger key first, an equal key with the smaller id first. */
  predicate Before(keys: map<Id, nat>, a: Id, b: Id)
    requires a in keys && b in keys
  {
    keys[a] > keys[b] || (keys[a] == keys[b] && a < b)
  }

  predicate IsFirst(keys: map<Id, nat>, x: Id) {
    x in keys && forall y :: y in keys && y != x ==> Before(keys, x, y)
  }

  /** Every non-empty set of keyed ids has a first element. */
  lemma {:induction false} FirstExists(keys: map<Id, nat>)
    requires keys != map[]
    ensures exists x :: IsFirst(keys, x)
    decreases |keys|
  {
    var y :| y in keys;
    var rest := keys - {y};
    assert rest.Keys == keys.Keys - {y};
    if rest == map[] {
      forall z | z in keys ensures z == y {
        assert z !in rest.Keys;
      }
      assert IsFirst(keys, y);
    } else {
      FirstExists(rest);
      var x :| IsFirst(rest, x);
      if Before(keys, x, y) {
        forall z | z in keys && z != x ensures Before(keys, x, z) {
          if z != y {
            assert z in rest && Before(rest, x, z);
          }
        }
        assert IsFirst(keys, x);
      } else {
        forall z | z in keys && z != y ensures Before(keys, y, z) {
          if z != x {
            assert z in rest && Before(rest, x, z);
          }
        }
        assert IsFirst(keys, y);
      }
    }
  }

  /** There is at most one first element. */
  lemma FirstUnique(keys: map<Id, nat>)
    ensures forall x, y :: IsFirst(keys, x) && IsFirst(keys, y) ==> x == y
  {
  }

  /** The id that ranks first. */
  function First(keys: map<Id, nat>): (x: Id)
    requires keys != map[]
    ensures IsFirst(keys, x)
  {
    FirstExists(keys);
    FirstUnique(keys);
    var x :| IsFirst(keys, x);
    x
  }

  /** The ids of `keys` in ranking order. */
  function Rank(keys: map<Id, nat>): (r: seq<Id>)
    ensures |r| == |keys|
    ensures forall x :: x in r <==> x in keys
    ensures forall i, j :: 0 <= i < j < |r| ==> Before(keys, r[i], r[j])
    decreases |keys|
  {
    if keys == map[] then []
    else
      var x := First(keys);
      var rest := keys - {x};
      assert rest.Keys == keys.Keys - {x};
      var tail := Rank(rest);
      RankStep(keys, x, rest, tail);
      [x] + tail
  }

  /** Putting the first id in front of a ranking of the others ranks them all. */
  lemma RankStep(keys: map<Id, nat>, x: Id, rest: map<Id, nat>, tail: seq<Id>)
    requires IsFirst(keys, x) && rest == keys - {x}
    requires |tail| == |rest|
    requires forall y :: y in tail <==> y in rest
    requires forall i, j :: 0 <= i < j < |tail| ==> Before(rest, tail[i], tail[j])
    ensures |[x] + tail| == |keys|
    ensures forall y :: y in [x] + tail <==> y in keys
    ensures forall i, j :: 0 <= i < j < |[x] + tail| ==> Before(keys, ([x] + tail)[i], ([x] + tail)[j])
  {
    assert rest.Keys == keys.Keys - {x};
    assert |keys.Keys| == |rest.Keys| + 1;
    var r := [x] + tail;
    forall i, j | 0 <= i < j < |r| ensures Before(keys, r[i], r[j]) {
      assert r[j] == tail[j - 1] && r[j] in rest;
      if i > 0 {
        assert r[i] == tail[i - 1];
        assert Before(rest, tail[i - 1], tail[j - 1]);
      }
    }
  }

  /** An id with a strictly larger key is ranked ahead of one with a smaller key. */
  lemma LargerKeyFirst(keys: map<Id, nat>, a: Id, b: Id)
    requires a in keys && b in keys && keys[a] > keys[b]
    ensures exists i, j :: 0 <= i < j < |Rank(keys)| && Rank(keys)[i] == a && Rank(keys)[j] == b
  {
    var r := Rank(keys);
    var i :| 0 <= i < |r| && r[i] == a;
    var j :| 0 <= j < |r| && r[j] == b;
    if j < i {
      assert false;
    }
    assert 0 <= i < j < |r| && r[i] == a && r[j] == b;
  }

  /** Every position of a ranking holds a ranked id. */
  lemma RankElems(keys: map<Id, nat>)
    ensures forall i :: 0 <= i < |Rank(keys)| ==> Rank(keys)[i] in keys
  {
    var r := Rank(keys);
    forall i | 0 <= i < |r| ensures r[i] in keys {
      assert r[i] in r;
    }
  }

  /** A ranking lists no id twice. */
  lemma RankNoDup(keys: map<Id, nat>)
    ensures NoDup(Rank(keys))
  {
    var r := Rank(keys);
    forall i, j | 0 <= i < j < |r| ensures r[i] != r[j] {
      assert Before(keys, r[i], r[j]);
    }
  }

  predicate RankedBy(keys: map<Id, nat>, s: seq<Id>) {
    (forall i :: 0 <= i < |s| ==> s[i] in keys) &&
    forall i, j :: 0 <= i < j < |s| ==> Before(keys, s[i], s[j])
  }

  /** The head of a ranked sequence comes before every other element. */
  lemma HeadFirst(keys: map<Id, nat>, s: seq<Id>)
    requires RankedBy(keys, s) && s != []
    ensures forall y :: y in s && y != s[0] ==> Before(keys, s[0], y)
  {
    forall y | y in s && y != s[0] ensures Before(keys, s[0], y) {
      var k :| 0 <= k < |s| && s[k] == y;
      assert k != 0;
    }
  }

  /** The tail of a ranked sequence is ranked. */
  lemma RankedByTail(keys: map<Id, nat>, s: seq<Id>)
    requires RankedBy(keys, s) && s != []
    ensures RankedBy(keys, s[1..])
    ensures forall y :: y in s[1..] ==> Before(keys, s[0], y)
  {
    var tail := s[1..];
    forall i, j | 0 <= i < j < |tail| ensures Before(keys, tail[i], tail[j]) {
      assert tail[i] == s[i + 1] && tail[j] == s[j + 1];
    }
    forall y | y in tail ensures Before(keys, s[0], y) {
      var k :| 0 <= k < |tail| && tail[k] == y;
      assert s[k + 1] == y;
    }
  }

  /** An id that comes before every element of a ranked sequence can head it. */
  lemma RankedByCons(keys: map<Id, nat>, x: Id, s: seq<Id>)
    requires x in keys && RankedBy(keys, s)
    requires forall y :: y in s ==> Before(keys, x, y)
    ensures RankedBy(keys, [x] + s)
  {
    var r := [x] + s;
    forall i | 0 <= i < |r| ensures r[i] in keys {
      if i > 0 { assert r[i] == s[i - 1]; }
    }
    forall i, j | 0 <= i < j < |r| ensures Before(keys, r[i], r[j]) {
      assert r[j] == s[j - 1];
      if i > 0 { assert r[i] == s[i - 1]; }
    }
  }

  /** Two sequences that list the same ids in ranking order are equal. */
  lemma {:induction false} RankedByUnique(keys: map<Id, nat>, s: seq<Id>, t: seq<Id>)
    requires RankedBy(keys, s) && RankedBy(keys, t)
    requires forall x :: x in s <==> x in t
    ensures s == t
    decreases |s|
  {
    assert t != [] ==> t[0] in t;
    assert s != [] ==> s[0] in s;
    if s == [] {
    } else {
      HeadFirst(keys, s);
      HeadFirst(keys, t);
      assert s[0] == t[0];
      forall x ensures x in s[1..] <==> x in t[1..] {
        if x in s[1..] {
          var k :| 1 <= k < |s| && s[k] == x;
          assert Before(keys, s[0], s[k]);
          assert x in t;
          var m :| 0 <= m < |t| && t[m] == x;
          assert m != 0;
          assert t[1..][m - 1] == x;
        }
        if x in t[1..] {
          var k :| 1 <= k < |t| && t[k] == x;
          assert Before(keys, t[0], t[k]);
          assert x in s;
          var m :| 0 <= m < |s| && s[m] == x;
          assert m != 0;
          assert s[1..][m - 1] == x;
        }
      }
      assert RankedBy(keys, s[1..]) by {
        forall i, j | 0 <= i < j < |s[1..]| ensures Before(keys, s[1..][i], s[1..][j]) {
          assert Before(keys, s[i + 1], s[j + 1]);
        }
      }
      assert RankedBy(keys, t[1..]) by {
        forall i, j | 0 <= i < j < |t[1..]| ensures Before(keys, t[1..][i], t[1..][j]) {
          assert Before(keys, t[i + 1], t[j + 1]);
        }
      }
      RankedByUnique(keys, s[1..], t[1..]);
      assert s == [s[0]] + s[1..];
      assert t == [t[0]] + t[1..];
    }
  }

  /** A sequence that lists exactly the ids of `keys` in ranking order is `Rank(keys)`:
      the order is total, so the ranking, and every page cut from it, is determined
      by the keys alone. */
  lemma RankUnique(keys: map<Id, nat>, s: seq<Id>)
    requires forall x :: x in s <==> x in keys
    requires RankedBy(keys, s)
    ensures s == Rank(keys)
  {
    RankedByUnique(keys, s, Rank(keys));
  }

  /** The page `[skip, skip + limit)` of the ranking: the `$sort`, `$limit:
      skip + limit`, `$skip: skip` stages. */
  function Top(keys: map<Id, nat>, skip: nat, limit: nat): (ids: seq<Id>)
    ensures |ids| == if skip >= |keys| then 0 else Min(|keys| - skip, limit)
    ensures forall i :: 0 <= i < |ids| ==> ids[i] in keys
    ensures forall i, j :: 0 <= i < j < |ids| ==> Before(keys, ids[i], ids[j])
  {
    RankElems(keys);
    WindowRanked(keys, Rank(keys), skip, limit);
    Window(Rank(keys), skip, limit)
  }

  /** A window of a ranked sequence is ranked. */
  lemma WindowRanked(keys: map<Id, nat>, s: seq<Id>, skip: nat, limit: nat)
    requires RankedBy(keys, s)
    ensures RankedBy(keys, Window(s, skip, limit))
  {
    var w := Window(s, skip, limit);
    forall i, j | 0 <= i < j < |w| ensures Before(keys, w[i], w[j]) {
      assert w[i] == s[skip + i] && w[j] == s[skip + j];
    }
  }

  /** A first page at least as long as the ranking lists every ranked id. */
  lemma TopComplete(keys: map<Id, nat>, limit: nat, x: Id)
    requires limit >= |keys| && x in keys
    ensures x in Top(keys, 0, limit)
  {
    assert Window(Rank(keys), 0, limit) == Rank(keys);
  }

  /** Consecutive pages neither overlap nor leave a gap. */
  lemma TopPages(keys: map<Id, nat>, skip: nat, a: nat, b: nat)
    ensures Top(keys, skip, a) + Top(keys, skip + a, b) == Top(keys, skip, a + b)
  {
    ConsecutivePages(Rank(keys), skip, a, b);
  }
}
