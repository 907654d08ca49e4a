/** Ordering of query results, the `orderBy` of the store's `findMany`: an insertion sort over
    any relation that orders every pair one way or the other. */
module Sorting {

  /** `le` orders every pair of values one way or the other. */
  ghost predicate Total<T(!new)>(le: (T, T) -> bool) {
    forall a, b :: le(a, b) || le(b, a)
  }

  /** Each element is ordered before the next. */
  predicate Sorted<T>(s: seq<T>, le: (T, T) -> bool) {
    forall k :: 0 < k < |s| ==> le(s[k - 1], s[k])
  }

  /** Inserts `x` before the first element it is ordered before. */
  function Insert<T(!new)>(x: T, s: seq<T>, le: (T, T) -> bool): (r: seq<T>)
    requires Total(le)
    ensures multiset(r) == multiset(s) + multiset{x}
    ensures |r| == |s| + 1
    ensures r[0] == x || (s != [] && r[0] == s[0])
    ensures Sorted(s, le) ==> Sorted(r, le)
  {
    if s == [] || le(x, s[0]) then
      [x] + s
    else
      var rest := Insert(x, s[1..], le);
      assert s == [s[0]] + s[1..];
      assert Sorted(s, le) ==> Sorted([s[0]] + rest, le) by {
        if Sorted(s, le) {
          assert le(s[0], rest[0]);
          forall k | 1 < k < |rest| + 1
            ensures le(([s[0]] + rest)[k - 1], ([s[0]] + rest)[k])
          {
            assert Sorted(s[1..], le);
          }
        }
      }
      [s[0]] + rest
  }

  /** The elements of `s` rearranged so that each is ordered before the next. */
  function Sort<T(!new)>(s: seq<T>, le: (T, T) -> bool): (r: seq<T>)
    requires Total(le)
    ensures multiset(r) == multiset(s)
    ensures |r| == |s|
    ensures Sorted(r, le)
  {
    if s == [] then []
    else
      assert s == [s[0]] + s[1..];
      Insert(s[0], Sort(s[1..], le), le)
  }

  /** The slice `[skip, skip + take)` of `s`, cut at its end: the `skip`/`take` of a query. */
  function Page<T>(s: seq<T>, skip: nat, take: nat): (r: seq<T>)
    ensures |r| <= take
    ensures skip <= |s| ==> |r| == if skip + take <= |s| then take else |s| - skip
    ensures forall k :: 0 <= k < |r| ==> skip + k < |s| && r[k] == s[skip + k]
  {
    if skip >= |s| then [] else if skip + take <= |s| then s[skip..skip + take] else s[skip..]
  }

  /** A page of a sorted sequence is sorted. */
  lemma PageSorted<T>(s: seq<T>, skip: nat, take: nat, le: (T, T) -> bool)
    requires Sorted(s, le)
    ensures Sorted(Page(s, skip, take), le)
  {
    var r := Page(s, skip, take);
    forall k | 0 < k < |r| ensures le(r[k - 1], r[k]) {
      assert r[k - 1] == s[skip + k - 1] && r[k] == s[skip + k];
    }
  }

  /** Every element of a page is an element of the sequence. */
  lemma PageMember<T>(s: seq<T>, skip: nat, take: nat, x: T)
    requires x in Page(s, skip, take)
    ensures x in s
  {
    var r := Page(s, skip, take);
    var k :| 0 <= k < |r| && r[k] == x;
    assert s[skip + k] == x;
  }

  /** No element occurs at two positions. */
  predicate Distinct<T(==)>(s: seq<T>) {
    forall i, j :: 0 <= i < j < |s| ==> s[i] != s[j]
  }

  /** In a sequence without repeats every element occurs once. */
  lemma {:induction false} DistinctOnce<T>(s: seq<T>, x: T)
    requires Distinct(s)
    ensures multiset(s)[x] <= 1
  {
    if s != [] {
      assert s == [s[0]] + s[1..];
      assert Distinct(s[1..]) by {
        forall i, j | 0 <= i < j < |s[1..]| ensures s[1..][i] != s[1..][j] {
          assert s[1..][i] == s[i + 1] && s[1..][j] == s[j + 1];
        }
      }
      DistinctOnce(s[1..], x);
      if x == s[0] {
        assert x !in s[1..] by {
          forall k | 0 <= k < |s[1..]| ensures s[1..][k] != x {
            assert s[1..][k] == s[k + 1];
          }
        }
      }
    }
  }

  /** An element found at two positions occurs at least twice. */
  lemma RepeatTwice<T>(s: seq<T>, i: nat, j: nat)
    requires i < j < |s| && s[i] == s[j]
    ensures multiset(s)[s[i]] >= 2
  {
    assert s == s[..j] + s[j..];
    assert s[i] == s[..j][i];
    assert s[j] == s[j..][0];
    assert multiset(s) == multiset(s[..j]) + multiset(s[j..]);
  }

  /** A rearrangement of a sequence without repeats has none. */
  lemma PermutationDistinct<T>(s: seq<T>, r: seq<T>)
    requires Distinct(s) && multiset(r) == multiset(s)
    ensures Distinct(r)
  {
    forall i, j | 0 <= i < j < |r| ensures r[i] != r[j] {
      if r[i] == r[j] {
        RepeatTwice(r, i, j);
        DistinctOnce(s, r[i]);
      }
    }
  }
}
