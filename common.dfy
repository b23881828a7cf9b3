/** Identifiers, response codes and the sequence operations the handlers share:
    MongoDB's `$pull` on an array and the `$limit: skip + limit` / `$skip: skip`
    paging stages. */
module Common {

  /** A document identifier. ObjectIds compare like numbers, and the string
      form of an id equals another's exactly when the ids are equal. */
  type Id = nat

  const OK: nat := 200
  const CREATED: nat := 201
  const BAD_REQUEST: nat := 400
  const FORBIDDEN: nat := 403
  const NOT_FOUND: nat := 404
  const SERVER_ERROR: nat := 500

  datatype Option<T> = None | Some(value: T)

  /** A handler's response code and the collection it leaves behind. */
  datatype Response<S> = Response(status: nat, state: S)

  function Min(a: nat, b: nat): nat { if a <= b then a else b }

  /** The page `$limit: skip + limit` followed by `$skip: skip` leaves. */
  function Window<T>(s: seq<T>, skip: nat, limit: nat): (r: seq<T>)
    ensures |r| == if skip >= |s| then 0 else Min(|s| - skip, limit)
    ensures forall i :: 0 <= i < |r| ==> r[i] == s[skip + i]
  {
    var limited := if skip + limit <= |s| then s[..skip + limit] else s;
    if skip <= |limited| then limited[skip..] else []
  }

  /** Consecutive pages of one ranking neither overlap nor leave a gap. */
  lemma ConsecutivePages<T>(s: seq<T>, skip: nat, a: nat, b: nat)
    ensures Window(s, skip, a) + Window(s, skip + a, b) == Window(s, skip, a + b)
  {
    var p, q, w := Window(s, skip, a), Window(s, skip + a, b), Window(s, skip, a + b);
    assert |p| + |q| == |w|;
    forall i | 0 <= i < |w| ensures (p + q)[i] == w[i] {
      if i >= |p| {
        assert |p| == a;
        assert q[i - a] == s[skip + a + (i - a)];
      }
    }
  }

  /** `$pull: {field: x}`: every occurrence of `x` removed, the rest kept in order. */
  function RemoveAll(s: seq<Id>, x: Id): (r: seq<Id>)
    ensures x !in r
    ensures forall y :: y != x ==> (y in r <==> y in s)
    ensures |r| <= |s|
    ensures x in s ==> |r| < |s|
    ensures x !in s ==> r == s
  {
    if s == [] then []
    else if s[0] == x then RemoveAll(s[1..], x)
    else [s[0]] + RemoveAll(s[1..], x)
  }

  /** `$pull` drops exactly the occurrences of `x`: every other element keeps
      its multiplicity. */
  lemma {:induction false} RemoveAllMultiset(s: seq<Id>, x: Id)
    ensures multiset(RemoveAll(s, x)) == multiset(s)[x := 0]
  {
    if s != [] {
      assert s == [s[0]] + s[1..];
      RemoveAllMultiset(s[1..], x);
    }
  }

  /** `$pull` works element by element: it keeps an element other than `x`
      and drops `x`, and the pieces stay in order. */
  lemma RemoveAllSingle(x: Id, y: Id)
    ensures RemoveAll([x], x) == []
    ensures y != x ==> RemoveAll([y], x) == [y]
  {
  }

  lemma {:induction false} RemoveAllAppend(s: seq<Id>, t: seq<Id>, x: Id)
    ensures RemoveAll(s + t, x) == RemoveAll(s, x) + RemoveAll(t, x)
  {
    if s == [] {
      assert s + t == t;
    } else {
      assert (s + t)[0] == s[0] && (s + t)[1..] == s[1..] + t;
      RemoveAllAppend(s[1..], t, x);
    }
  }

  predicate NoDup<T(==)>(s: seq<T>) {
    forall i, j :: 0 <= i < j < |s| ==> s[i] != s[j]
  }

  /** The elements of a sequence, as a set. */
  function Elems<T>(s: seq<T>): set<T> {
    set x | x in s
  }

  /** A subset is no larger than its superset. */
  lemma SubsetCard(a: set<Id>, b: set<Id>)
    requires a <= b
    ensures |a| <= |b|
  {
    assert b == a + (b - a);
  }
}
