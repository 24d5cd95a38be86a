/**
 * The stable sort both halves of the system rely on: Python's `sorted`
 * with a key and JavaScript's `Array.prototype.sort` with a comparator are
 * both stable. The sort is written on indices so that a caller can tell
 * which element of the original list landed where (the backend gives a
 * bonus point to an element of the sorted list that is the same object as
 * an element of the unsorted one).
 */
module StableSort {

  predicate InRange(keys: seq<int>, s: seq<nat>)
  {
    forall k :: 0 <= k < |s| ==> s[k] < |keys|
  }

  predicate Distinct(s: seq<nat>)
  {
    forall a, b :: 0 <= a < b < |s| ==> s[a] != s[b]
  }

  /** Keys never decrease along s. */
  predicate Sorted(keys: seq<int>, s: seq<nat>)
    requires InRange(keys, s)
  {
    forall a, b :: 0 <= a < b < |s| ==> keys[s[a]] <= keys[s[b]]
  }

  /** Indices with equal keys keep their original order. */
  predicate Stable(keys: seq<int>, s: seq<nat>)
    requires InRange(keys, s)
  {
    forall a, b :: 0 <= a < b < |s| && keys[s[a]] == keys[s[b]] ==> s[a] < s[b]
  }

  /** Puts index i in front of the first index of s whose key is not smaller. */
  function InsertIdx(keys: seq<int>, i: nat, s: seq<nat>): (r: seq<nat>)
    requires i < |keys| && InRange(keys, s)
    ensures |r| == |s| + 1 && InRange(keys, r)
    ensures forall x :: x in r <==> x == i || x in s
  {
    if s == [] || keys[i] <= keys[s[0]] then [i] + s
    else [s[0]] + InsertIdx(keys, i, s[1..])
  }

  /** Every element after the head of s is an element of s[1..]; spelled out by index. */
  lemma TailIndex(s: seq<nat>, x: nat) returns (j: nat)
    requires |s| >= 1 && x in s[1..]
    ensures 1 <= j < |s| && s[j] == x
  {
    var k :| 0 <= k < |s[1..]| && s[1..][k] == x;
    j := k + 1;
  }

  lemma {:induction false} InsertKeepsSorted(keys: seq<int>, i: nat, s: seq<nat>)
    requires i < |keys| && InRange(keys, s) && Sorted(keys, s)
    ensures Sorted(keys, InsertIdx(keys, i, s))
  {
    var r := InsertIdx(keys, i, s);
    if s == [] || keys[i] <= keys[s[0]] {
      forall a, b | 0 <= a < b < |r| ensures keys[r[a]] <= keys[r[b]] {
        if a == 0 && s != [] { assert keys[s[0]] <= keys[s[b - 1]]; }
      }
    } else {
      var t := InsertIdx(keys, i, s[1..]);
      InsertKeepsSorted(keys, i, s[1..]);
      forall a, b | 0 <= a < b < |r| ensures keys[r[a]] <= keys[r[b]] {
        if a == 0 {
          assert r[b] == t[b - 1] && t[b - 1] in t;
          if t[b - 1] != i {
            var j := TailIndex(s, t[b - 1]);
          }
        }
      }
    }
  }

  lemma {:induction false} InsertKeepsDistinct(keys: seq<int>, i: nat, s: seq<nat>)
    requires i < |keys| && InRange(keys, s) && Distinct(s) && i !in s
    ensures Distinct(InsertIdx(keys, i, s))
  {
    var r := InsertIdx(keys, i, s);
    if s == [] || keys[i] <= keys[s[0]] {
      forall a, b | 0 <= a < b < |r| ensures r[a] != r[b] {
        if a == 0 { assert s[b - 1] in s; }
      }
    } else {
      var t := InsertIdx(keys, i, s[1..]);
      InsertKeepsDistinct(keys, i, s[1..]);
      forall a, b | 0 <= a < b < |r| ensures r[a] != r[b] {
        if a == 0 {
          assert r[b] == t[b - 1] && t[b - 1] in t;
          if t[b - 1] != i {
            var j := TailIndex(s, t[b - 1]);
          }
        }
      }
    }
  }

  lemma {:induction false} InsertKeepsStable(keys: seq<int>, i: nat, s: seq<nat>)
    requires i < |keys| && InRange(keys, s) && Stable(keys, s)
    requires forall k :: 0 <= k < |s| ==> i < s[k]
    ensures Stable(keys, InsertIdx(keys, i, s))
  {
    var r := InsertIdx(keys, i, s);
    if s == [] || keys[i] <= keys[s[0]] {
    } else {
      var t := InsertIdx(keys, i, s[1..]);
      InsertKeepsStable(keys, i, s[1..]);
      forall a, b | 0 <= a < b < |r| && keys[r[a]] == keys[r[b]] ensures r[a] < r[b] {
        if a == 0 {
          assert r[b] == t[b - 1] && t[b - 1] in t;
          if t[b - 1] != i {
            var j := TailIndex(s, t[b - 1]);
          }
        }
      }
    }
  }

  /** The indices from..|keys|-1 in stable key order. */
  function SortFrom(keys: seq<int>, from: nat): (r: seq<nat>)
    requires from <= |keys|
    ensures |r| == |keys| - from && InRange(keys, r)
    ensures forall x :: x in r <==> from <= x < |keys|
    decreases |keys| - from
  {
    if from == |keys| then [] else InsertIdx(keys, from, SortFrom(keys, from + 1))
  }

  lemma {:induction false} SortFromOrdered(keys: seq<int>, from: nat)
    requires from <= |keys|
    ensures Distinct(SortFrom(keys, from)) && Sorted(keys, SortFrom(keys, from)) && Stable(keys, SortFrom(keys, from))
    decreases |keys| - from
  {
    if from < |keys| {
      var s := SortFrom(keys, from + 1);
      SortFromOrdered(keys, from + 1);
      assert forall k :: 0 <= k < |s| ==> from < s[k] by {
        forall k | 0 <= k < |s| ensures from < s[k] { assert s[k] in s; }
      }
      InsertKeepsSorted(keys, from, s);
      InsertKeepsDistinct(keys, from, s);
      InsertKeepsStable(keys, from, s);
    }
  }

  /** The order in which a stable sort by `keys` lists the indices 0..|keys|-1. */
  function SortIdx(keys: seq<int>): (r: seq<nat>)
    ensures |r| == |keys| && InRange(keys, r)
    ensures forall x: nat :: x in r <==> x < |keys|
    ensures Distinct(r) && Sorted(keys, r) && Stable(keys, r)
  {
    SortFromOrdered(keys, 0);
    SortFrom(keys, 0)
  }

  /** The elements of xs in the given index order. */
  function Pick<T>(xs: seq<T>, order: seq<nat>): (r: seq<T>)
    requires forall k :: 0 <= k < |order| ==> order[k] < |xs|
    ensures |r| == |order| && forall k :: 0 <= k < |order| ==> r[k] == xs[order[k]]
  {
    seq(|order|, k requires 0 <= k < |order| => xs[order[k]])
  }
}
