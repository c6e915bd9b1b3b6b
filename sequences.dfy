/** Row selection as pandas performs it with a boolean mask (`df[mask]`),
    and the facts about it the rest of the model relies on. */
module Sequences {

  /** r can be obtained from s by dropping elements, keeping the order of the rest. */
  ghost predicate SubsequenceOf<T>(r: seq<T>, s: seq<T>)
    decreases |s|
  {
    if r == [] then true
    else if s == [] then false
    else (r[0] == s[0] && SubsequenceOf(r[1..], s[1..])) || SubsequenceOf(r, s[1..])
  }

  /** No two elements of s are equal. */
  predicate Distinct<T(==)>(s: seq<T>)
  {
    forall i, j :: 0 <= i < j < |s| ==> s[i] != s[j]
  }

  /** No two elements of s have the same key. */
  predicate DistinctBy<T, K(==)>(s: seq<T>, key: T -> K)
  {
    forall i, j :: 0 <= i < j < |s| ==> key(s[i]) != key(s[j])
  }

  /** `df[mask]`: the rows for which `keep` holds, in their original order.
      The result is the order-preserving subsequence of exactly those rows:
      every kept row satisfies `keep`, and every row satisfying `keep`
      is kept as often as it occurs. */
  function Select<T(==,!new)>(s: seq<T>, keep: T -> bool): (r: seq<T>)
    ensures SubsequenceOf(r, s)
    ensures forall i :: 0 <= i < |r| ==> keep(r[i])
    ensures |r| <= |s|
  {
    if s == [] then []
    else
      assert s == [s[0]] + s[1..];
      if keep(s[0]) then [s[0]] + Select(s[1..], keep) else Select(s[1..], keep)
  }

  /** On two elements, the selection keeps each one that satisfies the mask. */
  lemma SelectPair<T(!new)>(x: T, y: T, keep: T -> bool)
    ensures Select([x, y], keep) == (if keep(x) then [x] else []) + (if keep(y) then [y] else [])
  {
    assert [x, y][1..] == [y];
    assert [y][1..] == [];
  }

  /** Every element satisfying the mask is kept as often as it occurs. */
  lemma {:induction false} SelectCounts<T(!new)>(s: seq<T>, keep: T -> bool)
    ensures forall x :: keep(x) ==> multiset(Select(s, keep))[x] == multiset(s)[x]
  {
    if s != [] {
      SelectCounts(s[1..], keep);
      assert s == [s[0]] + s[1..];
    }
  }

  /** An element of a selection is an element of the source. */
  lemma SelectMember<T(!new)>(s: seq<T>, keep: T -> bool, x: T)
    requires x in Select(s, keep)
    ensures x in s && keep(x)
  {
    var r := Select(s, keep);
    var i :| 0 <= i < |r| && r[i] == x;
    assert keep(x);
    SelectCounts(s, keep);
    assert multiset(r)[x] > 0;
  }

  /** A selection is empty exactly when no element satisfies the mask. */
  lemma SelectEmptyIff<T(!new)>(s: seq<T>, keep: T -> bool)
    ensures Select(s, keep) == [] <==> forall i :: 0 <= i < |s| ==> !keep(s[i])
  {
    var r := Select(s, keep);
    SelectCounts(s, keep);
    if r == [] {
      forall i | 0 <= i < |s| ensures !keep(s[i]) {
        assert s[i] in multiset(s);
      }
    } else {
      SelectMember(s, keep, r[0]);
    }
  }

  /** Two masks that agree on every element select the same rows. */
  lemma {:induction false} SelectAgree<T(!new)>(s: seq<T>, p: T -> bool, q: T -> bool)
    requires forall i :: 0 <= i < |s| ==> p(s[i]) == q(s[i])
    ensures Select(s, p) == Select(s, q)
  {
    if s != [] {
      SelectAgree(s[1..], p, q);
    }
  }

  /** A mask that every element satisfies keeps everything. */
  lemma {:induction false} SelectAll<T(!new)>(s: seq<T>, keep: T -> bool)
    requires forall i :: 0 <= i < |s| ==> keep(s[i])
    ensures Select(s, keep) == s
  {
    if s != [] {
      SelectAll(s[1..], keep);
    }
  }

  /** Filtering twice is filtering once by the conjunction of the masks. */
  lemma {:induction false} SelectSelect<T(!new)>(s: seq<T>, p: T -> bool, q: T -> bool)
    ensures Select(Select(s, p), q) == Select(s, x => p(x) && q(x))
  {
    if s != [] {
      SelectSelect(s[1..], p, q);
    }
  }

  /** Dropping rows cannot make two keys collide. */
  lemma {:induction false} SelectDistinctBy<T(!new), K>(s: seq<T>, keep: T -> bool, key: T -> K)
    requires DistinctBy(s, key)
    ensures DistinctBy(Select(s, keep), key)
  {
    if s != [] {
      var rest := Select(s[1..], keep);
      SelectDistinctBy(s[1..], keep, key);
      if keep(s[0]) {
        var r := [s[0]] + rest;
        assert r == Select(s, keep);
        forall i, j | 0 <= i < j < |r| ensures key(r[i]) != key(r[j]) {
          if i == 0 {
            SelectMember(s[1..], keep, r[j]);
            var k :| 0 <= k < |s[1..]| && s[1..][k] == r[j];
            assert s[k + 1] == r[j];
          } else {
            assert r[i] == rest[i - 1] && r[j] == rest[j - 1];
          }
        }
      }
    }
  }
}
