/**
 * Order-preserving filtering of a table's rows, and selection of rows by a
 * boolean mask (the way a data-frame is indexed by a column comparison).
 */
module Sequences {

  /** `sub` is obtained from `s` by deleting elements, keeping the order of the rest. */
  ghost predicate IsSubsequence<T>(sub: seq<T>, s: seq<T>)
    decreases |s|
  {
    sub == [] ||
    (s != [] &&
     ((sub[0] == s[0] && IsSubsequence(sub[1..], s[1..])) || IsSubsequence(sub, s[1..])))
  }

  lemma {:induction false} SubsequenceReflexive<T>(s: seq<T>)
    ensures IsSubsequence(s, s)
    decreases |s|
  {
    if s != [] {
      SubsequenceReflexive(s[1..]);
    }
  }

  /** Narrowing twice narrows: the subsequence relation is transitive. */
  lemma {:induction false} SubsequenceTransitive<T>(a: seq<T>, b: seq<T>, c: seq<T>)
    requires IsSubsequence(a, b) && IsSubsequence(b, c)
    ensures IsSubsequence(a, c)
    decreases |c|
  {
    if a == [] {
    } else if b == [] {
      assert false;
    } else if IsSubsequence(b, c[1..]) {
      SubsequenceTransitive(a, b, c[1..]);
    } else {
      assert b[0] == c[0] && IsSubsequence(b[1..], c[1..]);
      if a[0] == b[0] && IsSubsequence(a[1..], b[1..]) {
        SubsequenceTransitive(a[1..], b[1..], c[1..]);
      } else {
        SubsequenceTransitive(a, b[1..], c[1..]);
      }
    }
  }

  /**
   * The elements of `s` that satisfy `p`, in their original order. Each
   * surviving element occurs exactly as often as it does in `s`.
   */
  function Filter<T(==,!new)>(s: seq<T>, p: T -> bool): (kept: seq<T>)
    ensures IsSubsequence(kept, s)
    ensures forall x :: multiset(kept)[x] == if p(x) then multiset(s)[x] else 0
    ensures forall x :: x in kept <==> x in s && p(x)
    decreases |s|
  {
    if s == [] then []
    else
      var rest := Filter(s[1..], p);
      assert s == [s[0]] + s[1..];
      if p(s[0]) then
        assert ([s[0]] + rest)[1..] == rest;
        [s[0]] + rest
      else rest
  }

  /** Filtering depends only on which elements the predicate accepts. */
  lemma {:induction false} FilterExtensional<T(!new)>(s: seq<T>, p: T -> bool, q: T -> bool)
    requires forall x :: p(x) == q(x)
    ensures Filter(s, p) == Filter(s, q)
    decreases |s|
  {
    if s != [] {
      FilterExtensional(s[1..], p, q);
    }
  }

  /** Filtering by `p` and then by `q` is one filter by their conjunction. */
  lemma {:induction false} FilterComposes<T(!new)>(s: seq<T>, p: T -> bool, q: T -> bool)
    ensures Filter(Filter(s, p), q) == Filter(s, x => p(x) && q(x))
    decreases |s|
  {
    if s != [] {
      FilterComposes(s[1..], p, q);
      if p(s[0]) {
        assert Filter(s, p) == [s[0]] + Filter(s[1..], p);
        assert Filter(s, p)[1..] == Filter(s[1..], p);
      }
    }
  }

  /** Filtering by `p` and then by `q` is filtering once by any `r` equivalent to their conjunction. */
  lemma FilterThen<T(!new)>(s: seq<T>, p: T -> bool, q: T -> bool, r: T -> bool)
    requires forall x :: r(x) == (p(x) && q(x))
    ensures Filter(Filter(s, p), q) == Filter(s, r)
  {
    FilterComposes(s, p, q);
    FilterExtensional(s, x => p(x) && q(x), r);
  }

  /** A predicate that accepts every element filters nothing out. */
  lemma {:induction false} FilterKeepsAll<T(!new)>(s: seq<T>, p: T -> bool)
    requires forall x :: p(x)
    ensures Filter(s, p) == s
    decreases |s|
  {
    if s != [] {
      FilterKeepsAll(s[1..], p);
      assert s == [s[0]] + s[1..];
    }
  }

  /** Filtering a second time by the same predicate changes nothing. */
  lemma {:induction false} FilterIdempotent<T(!new)>(s: seq<T>, p: T -> bool)
    ensures Filter(Filter(s, p), p) == Filter(s, p)
  {
    FilterComposes(s, p, p);
    FilterExtensional(s, x => p(x) && p(x), p);
  }

  /**
   * When no element satisfies both predicates, the filter by their
   * disjunction holds every element of the two filters, none lost and none
   * twice.
   */
  lemma FilterDisjointUnion<T(!new)>(s: seq<T>, p: T -> bool, q: T -> bool)
    requires forall x :: !(p(x) && q(x))
    ensures multiset(Filter(s, x => p(x) || q(x))) == multiset(Filter(s, p)) + multiset(Filter(s, q))
  {
  }

  /** A boolean mask over a table's rows: entry `k` says whether row `k` is selected. */
  type Mask = seq<bool>

  /** The rows of `s` whose mask entry is true, in their original order. */
  function Select<T(!new)>(s: seq<T>, mask: Mask): (kept: seq<T>)
    requires |mask| == |s|
    ensures IsSubsequence(kept, s)
    ensures forall x :: x in kept <==> exists k :: 0 <= k < |s| && mask[k] && s[k] == x
    decreases |s|
  {
    if s == [] then []
    else
      var rest := Select(s[1..], mask[1..]);
      assert forall k :: 0 < k < |s| ==> s[k] == s[1..][k - 1] && mask[k] == mask[1..][k - 1];
      if mask[0] then
        assert ([s[0]] + rest)[1..] == rest;
        [s[0]] + rest
      else rest
  }

  /** The entry-wise disjunction of two masks: the union of two selections from one table. */
  function Union(m1: Mask, m2: Mask): (m: Mask)
    requires |m1| == |m2|
    ensures |m| == |m1|
    ensures forall k :: 0 <= k < |m| ==> (m[k] <==> m1[k] || m2[k])
  {
    seq(|m1|, k requires 0 <= k < |m1| => m1[k] || m2[k])
  }

  /** The entry-wise conjunction of two masks: a selection taken from within another. */
  function Within(m1: Mask, m2: Mask): (m: Mask)
    requires |m1| == |m2|
    ensures |m| == |m1|
    ensures forall k :: 0 <= k < |m| ==> (m[k] <==> m1[k] && m2[k])
  {
    seq(|m1|, k requires 0 <= k < |m1| => m1[k] && m2[k])
  }

  /** Selecting by the union of two masks gives exactly the rows of either selection. */
  lemma SelectUnion<T(!new)>(s: seq<T>, m1: Mask, m2: Mask)
    requires |m1| == |s| && |m2| == |s|
    ensures forall x :: x in Select(s, Union(m1, m2)) <==> x in Select(s, m1) || x in Select(s, m2)
  {
    var u := Union(m1, m2);
    forall x | x in Select(s, u)
      ensures x in Select(s, m1) || x in Select(s, m2)
    {
      var k :| 0 <= k < |s| && u[k] && s[k] == x;
      if m1[k] {
        assert x in Select(s, m1);
      } else {
        assert x in Select(s, m2);
      }
    }
    forall x | x in Select(s, m1) || x in Select(s, m2)
      ensures x in Select(s, u)
    {
      if x in Select(s, m1) {
        var k :| 0 <= k < |s| && m1[k] && s[k] == x;
        assert u[k];
      } else {
        var k :| 0 <= k < |s| && m2[k] && s[k] == x;
        assert u[k];
      }
    }
  }

  /** Selecting within another selection's mask gives only rows of that selection. */
  lemma SelectWithin<T(!new)>(s: seq<T>, m1: Mask, m2: Mask)
    requires |m1| == |s| && |m2| == |s|
    ensures forall x :: x in Select(s, Within(m1, m2)) ==> x in Select(s, m1) && x in Select(s, m2)
  {
    var w := Within(m1, m2);
    forall x | x in Select(s, w)
      ensures x in Select(s, m1) && x in Select(s, m2)
    {
      var k :| 0 <= k < |s| && w[k] && s[k] == x;
      assert m1[k] && m2[k];
    }
  }

  /** Selecting by a mask that evaluates `p` on every row is filtering by `p`. */
  lemma {:induction false} SelectIsFilter<T(!new)>(s: seq<T>, mask: Mask, p: T -> bool)
    requires |mask| == |s|
    requires forall k :: 0 <= k < |s| ==> mask[k] == p(s[k])
    ensures Select(s, mask) == Filter(s, p)
    decreases |s|
  {
    if s != [] {
      assert mask[0] == p(s[0]);
      SelectIsFilter(s[1..], mask[1..], p);
    }
  }
}
