/**
 * Row selection with a boolean mask, `frame[mask]` in pandas, as a filter that
 * keeps the rows satisfying a predicate in their original order.
 */
module Frames {

  /**
   * The rows of `s` for which `keep` holds, in their order in `s`: exactly the
   * kept rows, each as often as in `s`, as a subsequence of `s`.
   */
  function Where<T(==, !new)>(s: seq<T>, keep: T -> bool): (r: seq<T>)
    ensures forall x :: x in r <==> x in s && keep(x)
    ensures forall x :: multiset(r)[x] == if keep(x) then multiset(s)[x] else 0
    ensures IsSubsequence(r, s)
    decreases |s|
  {
    if s == [] then []
    else
      var rest := Where(s[1..], keep);
      assert s == [s[0]] + s[1..];
      assert multiset(s) == multiset([s[0]]) + multiset(s[1..]);
      if keep(s[0]) then
        [s[0]] + rest
      else
        SubsequenceExtend(rest, s);
        rest
  }

  /** `a` is `b` with some elements left out and the rest in the same order. */
  predicate IsSubsequence<T(==)>(a: seq<T>, b: seq<T>)
    decreases |b|
  {
    if a == [] then true
    else if b == [] then false
    else if a[0] == b[0] then IsSubsequence(a[1..], b[1..])
    else IsSubsequence(a, b[1..])
  }

  lemma {:induction false} SubsequenceReflexive<T(!new)>(s: seq<T>)
    ensures IsSubsequence(s, s)
    decreases |s|
  {
    if s != [] { SubsequenceReflexive(s[1..]); }
  }

  /** Dropping the first element of `a` keeps it a subsequence. */
  lemma {:induction false} SubsequenceDropFirst<T(!new)>(a: seq<T>, b: seq<T>)
    requires a != [] && IsSubsequence(a, b)
    ensures IsSubsequence(a[1..], b)
    decreases |b|, 1
  {
    if a[0] == b[0] {
      SubsequenceExtend(a[1..], b);
    } else {
      SubsequenceDropFirst(a, b[1..]);
      SubsequenceExtend(a[1..], b);
    }
  }

  /** A subsequence of the tail is a subsequence of the whole. */
  lemma {:induction false} SubsequenceExtend<T(!new)>(a: seq<T>, b: seq<T>)
    requires b != [] && IsSubsequence(a, b[1..])
    ensures IsSubsequence(a, b)
    decreases |b|, 0
  {
    if a != [] && a[0] == b[0] {
      SubsequenceDropFirst(a, b[1..]);
    }
  }

  lemma {:induction false} SubsequenceTransitive<T(!new)>(a: seq<T>, b: seq<T>, c: seq<T>)
    requires IsSubsequence(a, b) && IsSubsequence(b, c)
    ensures IsSubsequence(a, c)
    decreases |c|
  {
    if a != [] {
      assert b != [] && c != [];
      if b[0] == c[0] {
        if a[0] == b[0] {
          SubsequenceTransitive(a[1..], b[1..], c[1..]);
        } else {
          SubsequenceTransitive(a, b[1..], c[1..]);
          SubsequenceExtend(a, c);
        }
      } else {
        SubsequenceTransitive(a, b, c[1..]);
        SubsequenceExtend(a, c);
      }
    }
  }

  /** Filtering twice by one predicate is filtering once. */
  lemma {:induction false} WhereIdempotent<T(!new)>(s: seq<T>, keep: T -> bool)
    ensures Where(Where(s, keep), keep) == Where(s, keep)
  {
    WhereAll(Where(s, keep), keep);
  }

  /** A predicate every row satisfies keeps the frame as it is. */
  lemma {:induction false} WhereAll<T(!new)>(s: seq<T>, keep: T -> bool)
    requires forall x :: x in s ==> keep(x)
    ensures Where(s, keep) == s
    decreases |s|
  {
    if s != [] {
      assert s[0] in s;
      WhereAll(s[1..], keep);
    }
  }

  /** A subsequence of the same length is the sequence itself. */
  lemma {:induction false} SubsequenceSameLength<T(!new)>(a: seq<T>, b: seq<T>)
    requires IsSubsequence(a, b) && |a| == |b|
    ensures a == b
    decreases |b|
  {
    if a != [] {
      if a[0] == b[0] {
        SubsequenceSameLength(a[1..], b[1..]);
        assert a == [a[0]] + a[1..] && b == [b[0]] + b[1..];
      } else {
        SubsequenceLength(a, b[1..]);
      }
    }
  }

  lemma {:induction false} SubsequenceLength<T(!new)>(a: seq<T>, b: seq<T>)
    requires IsSubsequence(a, b)
    ensures |a| <= |b|
    decreases |b|
  {
    if a != [] {
      if a[0] == b[0] { SubsequenceLength(a[1..], b[1..]); } else { SubsequenceLength(a, b[1..]); }
    }
  }

  /** Two filters in sequence are one filter by the conjunction. */
  lemma {:induction false} WhereFuse<T(!new)>(s: seq<T>, p: T -> bool, q: T -> bool, both: T -> bool)
    requires forall x :: both(x) == (p(x) && q(x))
    ensures Where(Where(s, p), q) == Where(s, both)
    decreases |s|
  {
    if s != [] {
      WhereFuse(s[1..], p, q, both);
      if p(s[0]) {
        assert Where(s, p) == [s[0]] + Where(s[1..], p);
        assert Where(Where(s, p), q) == (if q(s[0]) then [s[0]] else []) + Where(Where(s[1..], p), q);
      } else {
        assert Where(s, p) == Where(s[1..], p);
      }
    }
  }

  /** Filtering a one-row frame whose row passes keeps it. */
  lemma WhereSingle<T(!new)>(x: T, keep: T -> bool)
    requires keep(x)
    ensures Where([x], keep) == [x]
  {
    assert [x][1..] == [];
  }

  /** Filtering a two-row frame that drops the first row and keeps the second. */
  lemma WhereSecondOfTwo<T(!new)>(x: T, y: T, keep: T -> bool)
    requires !keep(x) && keep(y)
    ensures Where([x, y], keep) == [y]
  {
    assert [x, y][1..] == [y] && [y][1..] == [];
  }
}
