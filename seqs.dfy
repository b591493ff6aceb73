/** Queries a document collection answers, stated over a sequence of documents in natural
    (insertion) order: findOne, find with a filter, countDocuments, a $sum, sort and limit. */
module Seqs {
  import opened Common

  /** Position of the first document satisfying `p`: what `findOne(filter)` returns. */
  function FirstIndex<T>(s: seq<T>, p: T -> bool): (r: Option<nat>)
    ensures r.Some? ==> r.value < |s| && p(s[r.value])
    ensures r.Some? ==> forall j :: 0 <= j < r.value ==> !p(s[j])
    ensures r.None? <==> forall j :: 0 <= j < |s| ==> !p(s[j])
  {
    if |s| == 0 then None
    else if p(s[0]) then Some(0)
    else match FirstIndex(s[1..], p)
      case None => None
      case Some(k) => Some(k + 1)
  }

  /** A document appended to a collection in which nothing matched is the first match. */
  lemma {:induction false} FirstIndexAppend<T>(s: seq<T>, x: T, p: T -> bool)
    requires FirstIndex(s, p).None? && p(x)
    ensures FirstIndex(s + [x], p) == Some(|s|)
  {
    if |s| > 0 {
      assert (s + [x])[1..] == s[1..] + [x];
      FirstIndexAppend(s[1..], x, p);
    }
  }

  /** The documents satisfying `p`, in their original order: what `find(filter)` returns.
      FilterMultiplicity adds that every copy of a selected document is kept. */
  function Filter<T(!new)>(s: seq<T>, p: T -> bool): (r: seq<T>)
    ensures |r| <= |s|
    ensures forall x :: x in r <==> x in s && p(x)
  {
    if |s| == 0 then []
    else (if p(s[0]) then [s[0]] else []) + Filter(s[1..], p)
  }

  /** A filter keeps every copy of a document it selects and no copy of one it does not. */
  lemma {:induction false} FilterMultiplicity<T(!new)>(s: seq<T>, p: T -> bool, x: T)
    ensures multiset(Filter(s, p))[x] == if p(x) then multiset(s)[x] else 0
  {
    if |s| > 0 {
      FilterMultiplicity(s[1..], p, x);
      assert s == [s[0]] + s[1..];
    }
  }

  /** A filter no document satisfies finds nothing. */
  lemma {:induction false} FilterNone<T(!new)>(s: seq<T>, p: T -> bool)
    requires forall x :: x in s ==> !p(x)
    ensures Filter(s, p) == []
  {
    if |s| > 0 {
      assert s[0] in s;
      FilterNone(s[1..], p);
    }
  }

  /** A filter every document satisfies finds everything. */
  lemma {:induction false} FilterAll<T(!new)>(s: seq<T>, p: T -> bool)
    requires forall x :: x in s ==> p(x)
    ensures Filter(s, p) == s
  {
    if |s| > 0 {
      assert s[0] in s;
      FilterAll(s[1..], p);
      assert [s[0]] + s[1..] == s;
    }
  }

  lemma {:induction false} FilterAppend<T(!new)>(a: seq<T>, b: seq<T>, p: T -> bool)
    ensures Filter(a + b, p) == Filter(a, p) + Filter(b, p)
  {
    if |a| == 0 {
      assert a + b == b;
    } else {
      assert (a + b)[1..] == a[1..] + b;
      FilterAppend(a[1..], b, p);
    }
  }

  /** `countDocuments(filter)`. */
  function Count<T(!new)>(s: seq<T>, p: T -> bool): nat
  {
    |Filter(s, p)|
  }

  /** `$sum` of a numeric field over the documents. */
  function SumOf<T>(s: seq<T>, f: T -> nat): nat
  {
    if |s| == 0 then 0 else f(s[0]) + SumOf(s[1..], f)
  }

  /** `limit(n)`. */
  function Take<T>(s: seq<T>, n: nat): (r: seq<T>)
    ensures |r| == if n < |s| then n else |s|
    ensures forall i :: 0 <= i < |r| ==> r[i] == s[i]
  {
    if n < |s| then s[..n] else s
  }

  /** The sequence with position `k` removed: what a delete by id leaves behind. */
  function RemoveAt<T>(s: seq<T>, k: nat): (r: seq<T>)
    requires k < |s|
    ensures |r| == |s| - 1
    ensures forall i :: 0 <= i < k ==> r[i] == s[i]
    ensures forall i :: k <= i < |r| ==> r[i] == s[i + 1]
  {
    s[..k] + s[k + 1..]
  }

  lemma {:induction false} CountMonotone<T(!new)>(s: seq<T>, p: T -> bool, q: T -> bool)
    requires forall x :: p(x) ==> q(x)
    ensures Count(s, p) <= Count(s, q)
  {
    if |s| > 0 {
      CountMonotone(s[1..], p, q);
    }
  }

  /** Two filters that no document satisfies together count at most the whole collection. */
  lemma {:induction false} CountDisjoint<T(!new)>(s: seq<T>, p: T -> bool, q: T -> bool)
    requires forall x :: !(p(x) && q(x))
    ensures Count(s, p) + Count(s, q) <= |s|
  {
    if |s| > 0 {
      CountDisjoint(s[1..], p, q);
    }
  }

  /** Two filters that no document satisfies together count, added up, what their union
      `either` counts. */
  lemma {:induction false} CountUnion<T(!new)>(s: seq<T>, p: T -> bool, q: T -> bool, either: T -> bool)
    requires forall x :: !(p(x) && q(x))
    requires forall x :: either(x) <==> p(x) || q(x)
    ensures Count(s, p) + Count(s, q) == Count(s, either)
  {
    if |s| > 0 {
      CountUnion(s[1..], p, q, either);
    }
  }

  /** Replacing the document at position k changes a count by what the old document
      contributed and what the new one contributes. */
  lemma {:induction false} CountUpdate<T(!new)>(s: seq<T>, k: nat, x: T, p: T -> bool)
    requires k < |s|
    ensures Count(s[k := x], p) + (if p(s[k]) then 1 else 0) == Count(s, p) + (if p(x) then 1 else 0)
  {
    var t := s[k := x];
    CountFirst(s, p);
    CountFirst(t, p);
    if k == 0 {
      assert t[1..] == s[1..];
    } else {
      assert t[1..] == s[1..][k - 1 := x];
      CountUpdate(s[1..], k - 1, x, p);
    }
  }

  lemma CountFirst<T(!new)>(s: seq<T>, p: T -> bool)
    requires |s| > 0
    ensures Count(s, p) == (if p(s[0]) then 1 else 0) + Count(s[1..], p)
  {
  }

  /** Summing over part of a collection never exceeds summing over all of it. */
  lemma {:induction false} SumOfFilterBounded<T(!new)>(s: seq<T>, p: T -> bool, f: T -> nat)
    ensures SumOf(Filter(s, p), f) <= SumOf(s, f)
  {
    if |s| > 0 {
      SumOfFilterBounded(s[1..], p, f);
      SumOfAppend(if p(s[0]) then [s[0]] else [], Filter(s[1..], p), f);
    }
  }

  lemma {:induction false} SumOfAppend<T>(a: seq<T>, b: seq<T>, f: T -> nat)
    ensures SumOf(a + b, f) == SumOf(a, f) + SumOf(b, f)
  {
    if |a| > 0 {
      assert (a + b)[1..] == a[1..] + b;
      SumOfAppend(a[1..], b, f);
    } else {
      assert a + b == b;
    }
  }

  /** A filter that selects nothing sums to zero. */
  lemma {:induction false} SumOfEmptyFilter<T(!new)>(s: seq<T>, p: T -> bool, f: T -> nat)
    requires Count(s, p) == 0
    ensures SumOf(Filter(s, p), f) == 0
  {
  }

  // ---------------------------------------------------------------------------
  // sort({ field: -1 })

  /** A sort key as the document store orders it: a missing or null field sorts below
      every number. */
  datatype Rank = Missing | At(n: int)

  predicate RankGe(a: Rank, b: Rank)
  {
    match (a, b)
    case (_, Missing) => true
    case (Missing, At(_)) => false
    case (At(x), At(y)) => x >= y
  }

  ghost predicate SortedDesc<T>(s: seq<T>, key: T -> Rank)
  {
    forall i, j :: 0 <= i < j < |s| ==> RankGe(key(s[i]), key(s[j]))
  }

  function InsertDesc<T(==)>(x: T, s: seq<T>, key: T -> Rank): (r: seq<T>)
    requires SortedDesc(s, key)
    ensures SortedDesc(r, key)
    ensures multiset(r) == multiset(s) + multiset{x}
  {
    if |s| == 0 then [x]
    else if RankGe(key(x), key(s[0])) then [x] + s
    else
      var tail := InsertDesc(x, s[1..], key);
      assert s == [s[0]] + s[1..];
      HeadStaysFirst(s[0], x, s[1..], tail, key);
      [s[0]] + tail
  }

  /** Putting back the head of a sorted sequence in front of a sorted permutation of its
      tail plus a lower-ranked element keeps the whole sorted. */
  lemma HeadStaysFirst<T>(h: T, x: T, rest: seq<T>, tail: seq<T>, key: T -> Rank)
    requires SortedDesc([h] + rest, key)
    requires !RankGe(key(x), key(h))
    requires SortedDesc(tail, key)
    requires multiset(tail) == multiset(rest) + multiset{x}
    ensures SortedDesc([h] + tail, key)
  {
    forall j | 0 <= j < |tail| ensures RankGe(key(h), key(tail[j])) {
      assert tail[j] in multiset(tail);
      if tail[j] == x {
        RankTotal(key(x), key(h));
      } else {
        assert tail[j] in multiset(rest);
        var k :| 0 <= k < |rest| && rest[k] == tail[j];
        assert ([h] + rest)[0] == h && ([h] + rest)[k + 1] == rest[k];
        assert RankGe(key(([h] + rest)[0]), key(([h] + rest)[k + 1]));
      }
    }
    var r := [h] + tail;
    forall i, j | 0 <= i < j < |r| ensures RankGe(key(r[i]), key(r[j])) {
      if i > 0 {
        assert r[i] == tail[i - 1] && r[j] == tail[j - 1];
      } else {
        assert r[j] == tail[j - 1];
      }
    }
  }

  /** Newest-first (largest key first) ordering of a collection. */
  function SortDesc<T(==)>(s: seq<T>, key: T -> Rank): (r: seq<T>)
    ensures SortedDesc(r, key)
    ensures multiset(r) == multiset(s)
  {
    if |s| == 0 then []
    else
      assert s == [s[0]] + s[1..];
      InsertDesc(s[0], SortDesc(s[1..], key), key)
  }

  /** `sort(...).limit(n)` keeps the top n: everything it drops ranks no higher than
      anything it keeps. */
  lemma TopOfSorted<T>(s: seq<T>, key: T -> Rank, n: nat, dropped: T, kept: T)
    requires SortedDesc(s, key)
    requires dropped in s && dropped !in Take(s, n)
    requires kept in Take(s, n)
    ensures RankGe(key(kept), key(dropped))
  {
    var i :| 0 <= i < |s| && s[i] == dropped;
    var t := Take(s, n);
    var j :| 0 <= j < |t| && t[j] == kept;
    if i < |t| {
      assert false;
    }
    assert t[j] == s[j];
  }

  lemma RankTotal(a: Rank, b: Rank)
    requires !RankGe(a, b)
    ensures RankGe(b, a)
  {
  }
}
