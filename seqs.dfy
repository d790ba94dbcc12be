/** Sequence helpers shared by the dashboard models: an optional value, the
    "ordered subsequence" relation, JavaScript's `findIndex` by key and
    `filter` by key. */
module Seqs {

  datatype Option<+T> = None | Some(value: T)

  /** `a` is obtained from `b` by deleting elements, keeping the order of the
      rest (matched greedily from the end). */
  predicate IsSubsequence<T(==)>(a: seq<T>, b: seq<T>)
    decreases |b|
  {
    if b == [] then a == []
    else if a != [] && a[|a| - 1] == b[|b| - 1] then IsSubsequence(a[..|a| - 1], b[..|b| - 1])
    else IsSubsequence(a, b[..|b| - 1])
  }

  lemma {:induction false} SubsequenceMembers<T>(a: seq<T>, b: seq<T>, x: T)
    requires IsSubsequence(a, b) && x in a
    ensures x in b
    decreases |b|
  {
    if b != [] {
      if a != [] && a[|a| - 1] == b[|b| - 1] {
        if x != a[|a| - 1] {
          assert x in a[..|a| - 1];
          SubsequenceMembers(a[..|a| - 1], b[..|b| - 1], x);
        }
      } else {
        SubsequenceMembers(a, b[..|b| - 1], x);
      }
    }
  }

  /** Dropping the last element of a subsequence leaves a subsequence. */
  lemma {:induction false} SubsequenceDropLast<T>(a: seq<T>, b: seq<T>)
    requires IsSubsequence(a, b) && a != []
    ensures IsSubsequence(a[..|a| - 1], b)
    decreases |b|, 0
  {
    var a0 := a[..|a| - 1];
    if a[|a| - 1] == b[|b| - 1] {
      assert IsSubsequence(a0, b[..|b| - 1]);
      SubsequenceExtend(a0, b[..|b| - 1], b[|b| - 1]);
      assert b[..|b| - 1] + [b[|b| - 1]] == b;
    } else {
      SubsequenceDropLast(a, b[..|b| - 1]);
      SubsequenceExtend(a0, b[..|b| - 1], b[|b| - 1]);
      assert b[..|b| - 1] + [b[|b| - 1]] == b;
    }
  }

  /** A subsequence of `b` is a subsequence of any extension of `b`. */
  lemma {:induction false} SubsequenceExtend<T>(a: seq<T>, b: seq<T>, x: T)
    requires IsSubsequence(a, b)
    ensures IsSubsequence(a, b + [x])
    decreases |b|, 1
  {
    assert (b + [x])[..|b|] == b;
    if a != [] && a[|a| - 1] == x {
      SubsequenceDropLast(a, b);
    }
  }

  /** Index of the first element whose key equals `k`, or -1 when there is
      none (JavaScript's `findIndex(x => key(x) === k)`). */
  function IndexOfKey<T, K(==)>(s: seq<T>, key: T -> K, k: K): (i: int)
    ensures -1 <= i < |s|
    ensures 0 <= i ==> key(s[i]) == k && forall j :: 0 <= j < i ==> key(s[j]) != k
    ensures i == -1 <==> forall j :: 0 <= j < |s| ==> key(s[j]) != k
    decreases |s|
  {
    if s == [] then -1
    else if key(s[0]) == k then 0
    else
      var rest := IndexOfKey(s[1..], key, k);
      if rest < 0 then -1 else rest + 1
  }

  /** The search only looks at keys: two sequences with the same keys,
      position by position, give the same index. */
  lemma {:induction false} IndexOfKeySameKeys<T, K>(s: seq<T>, t: seq<T>, key: T -> K, k: K)
    requires |s| == |t|
    requires forall j :: 0 <= j < |s| ==> key(s[j]) == key(t[j])
    ensures IndexOfKey(s, key, k) == IndexOfKey(t, key, k)
  {
    var i := IndexOfKey(s, key, k);
    if i >= 0 {
      assert key(t[i]) == k;
      assert forall j :: 0 <= j < i ==> key(t[j]) != k by {
        forall j | 0 <= j < i ensures key(t[j]) != k {
          assert key(s[j]) != k;
        }
      }
    } else {
      assert forall j :: 0 <= j < |t| ==> key(t[j]) != k by {
        forall j | 0 <= j < |t| ensures key(t[j]) != k {
          assert key(s[j]) != k;
        }
      }
    }
  }

  /** The elements whose key differs from `k`, in their original order
      (JavaScript's `filter(x => key(x) !== k)`). */
  function RemoveKey<T, K(==)>(s: seq<T>, key: T -> K, k: K): (r: seq<T>)
    ensures |r| <= |s|
    ensures forall x :: x in r ==> key(x) != k
    decreases |s|
  {
    if s == [] then []
    else
      var rest := RemoveKey(s[..|s| - 1], key, k);
      if key(s[|s| - 1]) != k then rest + [s[|s| - 1]] else rest
  }

  /** Removing by key keeps exactly the records with another key, in their
      original order. */
  lemma {:induction false} RemoveKeyKeepsOthers<T, K>(s: seq<T>, key: T -> K, k: K)
    ensures IsSubsequence(RemoveKey(s, key, k), s)
    ensures forall x :: x in RemoveKey(s, key, k) <==> x in s && key(x) != k
    ensures forall x :: multiset(RemoveKey(s, key, k))[x] == if key(x) != k then multiset(s)[x] else 0
    decreases |s|
  {
    if s != [] {
      var init, last := s[..|s| - 1], s[|s| - 1];
      RemoveKeyKeepsOthers(init, key, k);
      var rest := RemoveKey(init, key, k);
      assert s == init + [last];
      assert multiset(s) == multiset(init) + multiset{last};
      if key(last) != k {
        assert (rest + [last])[..|rest + [last]| - 1] == rest;
      } else {
        assert IsSubsequence(rest, s) by {
          if rest != [] && rest[|rest| - 1] == last {
            assert false;
          }
        }
      }
    }
  }

  /** Removing a key that no record has changes nothing. */
  lemma {:induction false} RemoveAbsentKey<T, K>(s: seq<T>, key: T -> K, k: K)
    requires forall j :: 0 <= j < |s| ==> key(s[j]) != k
    ensures RemoveKey(s, key, k) == s
    decreases |s|
  {
    if s != [] {
      RemoveAbsentKey(s[..|s| - 1], key, k);
      assert s[..|s| - 1] + [s[|s| - 1]] == s;
    }
  }
}
