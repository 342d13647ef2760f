/**
 * The array operations the hooks apply to their lists: `filter`, and
 * `map(x => hit(x) ? y : x)` (replace every matching element), with the
 * facts the model needs about them.
 */
module SeqOps {

  /** `s.filter(keep)`: the elements that satisfy `keep`, in their original order. */
  function Filter<T>(s: seq<T>, keep: T -> bool): (r: seq<T>)
    ensures |r| <= |s|
  {
    if s == [] then []
    else (if keep(s[0]) then [s[0]] else []) + Filter(s[1..], keep)
  }

  /** `s.map(x => hit(x) ? y : x)`. */
  function Replace<T>(s: seq<T>, hit: T -> bool, y: T): (r: seq<T>)
  {
    if s == [] then []
    else [if hit(s[0]) then y else s[0]] + Replace(s[1..], hit, y)
  }

  /** `a` is `b` with some elements left out, the rest kept in order. */
  predicate IsSubsequence<T(==)>(a: seq<T>, b: seq<T>)
    decreases |b|
  {
    a == [] || (b != [] && ((a[0] == b[0] && IsSubsequence(a[1..], b[1..])) || IsSubsequence(a, b[1..])))
  }

  function Not<T>(p: T -> bool): T -> bool {
    x => !p(x)
  }

  /** What is kept is exactly the elements of `s` that satisfy `keep`. */
  lemma {:induction false} FilterMembers<T>(s: seq<T>, keep: T -> bool, x: T)
    ensures x in Filter(s, keep) <==> x in s && keep(x)
  {
    if s != [] {
      FilterMembers(s[1..], keep, x);
      assert s == [s[0]] + s[1..];
    }
  }

  /** Every element of a filter result satisfies the predicate. */
  lemma {:induction false} FilterAll<T>(s: seq<T>, keep: T -> bool)
    ensures forall i :: 0 <= i < |Filter(s, keep)| ==> keep(Filter(s, keep)[i])
  {
    forall i | 0 <= i < |Filter(s, keep)| ensures keep(Filter(s, keep)[i]) {
      FilterMembers(s, keep, Filter(s, keep)[i]);
    }
  }

  /** A filter keeps the order of what it keeps. */
  lemma {:induction false} FilterIsSubsequence<T>(s: seq<T>, keep: T -> bool)
    ensures IsSubsequence(Filter(s, keep), s)
  {
    if s != [] {
      FilterIsSubsequence(s[1..], keep);
      var r := Filter(s, keep);
      if keep(s[0]) {
        assert r[0] == s[0] && r[1..] == Filter(s[1..], keep);
      } else {
        assert r == Filter(s[1..], keep);
      }
    }
  }

  /** A predicate and its negation split a list: the two parts add up to the whole. */
  lemma {:induction false} FilterPartition<T>(s: seq<T>, keep: T -> bool)
    ensures |Filter(s, keep)| + |Filter(s, Not(keep))| == |s|
    ensures multiset(Filter(s, keep)) + multiset(Filter(s, Not(keep))) == multiset(s)
  {
    if s != [] {
      FilterPartition(s[1..], keep);
      assert s == [s[0]] + s[1..];
    }
  }

  /** When nothing is dropped, the filter returns the list itself. */
  lemma {:induction false} FilterKeepsAll<T>(s: seq<T>, keep: T -> bool)
    requires forall i :: 0 <= i < |s| ==> keep(s[i])
    ensures Filter(s, keep) == s
  {
    if s != [] {
      FilterKeepsAll(s[1..], keep);
      assert s == [s[0]] + s[1..];
    }
  }

  /** Replacement keeps the length and changes exactly the matching positions. */
  lemma {:induction false} ReplaceAt<T>(s: seq<T>, hit: T -> bool, y: T)
    ensures |Replace(s, hit, y)| == |s|
    ensures forall i :: 0 <= i < |s| ==> Replace(s, hit, y)[i] == if hit(s[i]) then y else s[i]
  {
    if s != [] {
      ReplaceAt(s[1..], hit, y);
    }
  }
}
