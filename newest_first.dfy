/**
  The ordering `getAllAssessments` promises: records sorted by their `timestamp`
  property, most recent first, with ties left in either order.
 */
module NewestFirst {
  import opened JsValues

  const TimestampField: string := "timestamp"

  /**
    The value the comparator reads from a record. Every stored record carries a
    numeric timestamp (the store's invariant), so the default is never consulted
    for the records the store lists.
   */
  function Time(o: Obj): int
  {
    if TimestampField in o && o[TimestampField].Number? then o[TimestampField].n else 0
  }

  /** Non-increasing by timestamp: equal timestamps may sit next to each other in either order. */
  predicate IsNewestFirst(s: seq<Obj>)
  {
    forall i, j :: 0 <= i < j < |s| ==> Time(s[j]) <= Time(s[i])
  }

  /** Strictly decreasing by timestamp. */
  predicate IsStrictlyNewestFirst(s: seq<Obj>)
  {
    forall i, j :: 0 <= i < j < |s| ==> Time(s[j]) < Time(s[i])
  }

  /** Places `x` in front of the first record of `s` that is not newer than it. */
  function Insert(x: Obj, s: seq<Obj>): (r: seq<Obj>)
    ensures |r| == |s| + 1
    ensures r[0] == x || (s != [] && r[0] == s[0])
  {
    if s == [] then [x]
    else if Time(s[0]) <= Time(x) then [x] + s
    else [s[0]] + Insert(x, s[1..])
  }

  /** The sort with the comparator `(a, b) => b.timestamp - a.timestamp`, as an insertion sort. */
  function SortNewestFirst(s: seq<Obj>): (r: seq<Obj>)
    ensures |r| == |s|
  {
    if s == [] then [] else Insert(s[0], SortNewestFirst(s[1..]))
  }

  lemma {:induction false} InsertIsPermutation(x: Obj, s: seq<Obj>)
    ensures multiset(Insert(x, s)) == multiset(s) + multiset{x}
  {
    if s != [] && Time(x) < Time(s[0]) {
      InsertIsPermutation(x, s[1..]);
      assert s == [s[0]] + s[1..];
    }
  }

  /** Every record `Insert` returns is at most as new as a bound both `x` and `s` respect. */
  lemma {:induction false} InsertIsBounded(x: Obj, s: seq<Obj>, newest: int)
    requires Time(x) <= newest
    requires forall i :: 0 <= i < |s| ==> Time(s[i]) <= newest
    ensures forall i :: 0 <= i < |Insert(x, s)| ==> Time(Insert(x, s)[i]) <= newest
  {
    if s != [] && Time(x) < Time(s[0]) {
      InsertIsBounded(x, s[1..], newest);
    }
  }

  lemma {:induction false} InsertKeepsNewestFirst(x: Obj, s: seq<Obj>)
    requires IsNewestFirst(s)
    ensures IsNewestFirst(Insert(x, s))
  {
    if s != [] && Time(x) < Time(s[0]) {
      var rest := Insert(x, s[1..]);
      InsertKeepsNewestFirst(x, s[1..]);
      InsertIsBounded(x, s[1..], Time(s[0]));
      assert Insert(x, s) == [s[0]] + rest;
    }
  }

  /** The sorted listing holds exactly the fetched records, each as often as it was fetched. */
  lemma {:induction false} SortIsPermutation(s: seq<Obj>)
    ensures multiset(SortNewestFirst(s)) == multiset(s)
  {
    if s != [] {
      SortIsPermutation(s[1..]);
      InsertIsPermutation(s[0], SortNewestFirst(s[1..]));
      assert s == [s[0]] + s[1..];
    }
  }

  /** The sorted listing is newest first. */
  lemma {:induction false} SortIsNewestFirst(s: seq<Obj>)
    ensures IsNewestFirst(SortNewestFirst(s))
  {
    if s != [] {
      SortIsNewestFirst(s[1..]);
      InsertKeepsNewestFirst(s[0], SortNewestFirst(s[1..]));
    }
  }

  /** Two records with different timestamps can be listed newest first in one way only. */
  lemma ListingOfTwo(older: Obj, newer: Obj, r: seq<Obj>)
    requires Time(older) < Time(newer)
    requires multiset(r) == multiset{older, newer}
    requires IsNewestFirst(r)
    ensures r == [newer, older]
  {
    assert |r| == 2 by {
      assert |multiset(r)| == |r|;
    }
    assert multiset(r) == multiset{r[0], r[1]} by { assert r == [r[0], r[1]]; }
  }

  /**
    Two different records with the same timestamp defeat a strict ordering: no
    listing that holds both is strictly newest first.
   */
  lemma {:induction false} TiesDefeatStrictOrder(a: Obj, b: Obj, r: seq<Obj>)
    requires a != b && Time(a) == Time(b)
    requires a in multiset(r) && b in multiset(r)
    ensures !IsStrictlyNewestFirst(r)
  {
    var i :| 0 <= i < |r| && r[i] == a;
    var j :| 0 <= j < |r| && r[j] == b;
    assert i != j;
    if i < j {
      assert !(Time(r[j]) < Time(r[i]));
    } else {
      assert !(Time(r[i]) < Time(r[j]));
    }
  }
}
