/** The orderings the storage queries sort by (`ORDER BY name`,
    `ORDER BY timestamp`), and one insertion sort proved against them.
    Strings compare code point by code point, which is the order of their
    UTF-8 bytes, the storage engine's default collation. */
module Ordering {

  /** `a <= b` in lexicographic order by character code. */
  predicate LexLe(a: string, b: string)
    decreases |a|
  {
    if a == [] then true
    else if b == [] then false
    else if a[0] != b[0] then a[0] < b[0]
    else LexLe(a[1..], b[1..])
  }

  lemma {:induction false} LexLeTotal(a: string, b: string)
    ensures LexLe(a, b) || LexLe(b, a)
    decreases |a|
  {
    if a != [] && b != [] && a[0] == b[0] {
      LexLeTotal(a[1..], b[1..]);
    }
  }

  lemma {:induction false} LexLeAntisymmetric(a: string, b: string)
    requires LexLe(a, b) && LexLe(b, a)
    ensures a == b
    decreases |a|
  {
    if a != [] && b != [] {
      LexLeAntisymmetric(a[1..], b[1..]);
      assert a == [a[0]] + a[1..] && b == [b[0]] + b[1..];
    }
  }

  lemma {:induction false} LexLeTransitive(a: string, b: string, c: string)
    requires LexLe(a, b) && LexLe(b, c)
    ensures LexLe(a, c)
    decreases |a|
  {
    if a != [] && b != [] && c != [] && a[0] == b[0] == c[0] {
      LexLeTransitive(a[1..], b[1..], c[1..]);
    }
  }

  /** `le` is total and transitive: a valid sort key comparison (ties allowed). */
  ghost predicate TotalPreorder<T(!new)>(le: (T, T) -> bool) {
    && (forall a, b :: le(a, b) || le(b, a))
    && (forall a, b, c :: le(a, b) && le(b, c) ==> le(a, c))
  }

  predicate SortedBy<T>(s: seq<T>, le: (T, T) -> bool) {
    forall i, j :: 0 <= i < j < |s| ==> le(s[i], s[j])
  }

  /** Inserts `x` into the sorted `s`, after every element that is not greater. */
  function InsertSorted<T(!new)>(x: T, s: seq<T>, le: (T, T) -> bool): (r: seq<T>)
    requires TotalPreorder(le) && SortedBy(s, le)
    ensures SortedBy(r, le)
    ensures multiset(r) == multiset(s) + multiset{x}
  {
    if s == [] then [x]
    else if le(s[0], x) then
      var rest := InsertSorted(x, s[1..], le);
      assert s == [s[0]] + s[1..];
      LowerBoundPrepend(s[0], x, s[1..], rest, le);
      [s[0]] + rest
    else
      assert SortedBy([x] + s, le) by {
        assert le(x, s[0]);
        forall k | 0 <= k < |s| ensures le(x, s[k]) {
          if k > 0 { assert le(s[0], s[k]); }
        }
      }
      [x] + s
  }

  /** A lower bound of `x` and of all of `s` stays sorted in front of any
      permutation of `s` plus `x`. */
  lemma {:induction false} LowerBoundPrepend<T(!new)>(lo: T, x: T, s: seq<T>, rest: seq<T>, le: (T, T) -> bool)
    requires le(lo, x) && (forall k :: 0 <= k < |s| ==> le(lo, s[k]))
    requires SortedBy(rest, le) && multiset(rest) == multiset(s) + multiset{x}
    ensures SortedBy([lo] + rest, le)
  {
    forall k | 0 <= k < |rest| ensures le(lo, rest[k]) {
      assert rest[k] in multiset(rest);
      if rest[k] != x {
        assert rest[k] in multiset(s);
        var i :| 0 <= i < |s| && s[i] == rest[k];
      }
    }
  }

  /** Insertion sort: the result is ordered by `le` and a permutation of `s`. */
  function SortBy<T(!new)>(s: seq<T>, le: (T, T) -> bool): (r: seq<T>)
    requires TotalPreorder(le)
    ensures SortedBy(r, le)
    ensures multiset(r) == multiset(s)
  {
    if s == [] then []
    else
      assert s == [s[0]] + s[1..];
      InsertSorted(s[0], SortBy(s[1..], le), le)
  }

  /** Keeps the elements that satisfy `p`, in their order: the effect of a
      `WHERE` clause on a table held as a sequence. */
  function Filter<T(!new)>(s: seq<T>, p: T -> bool): (r: seq<T>)
    ensures |r| <= |s|
    ensures forall k :: 0 <= k < |r| ==> p(r[k])
    ensures forall x :: multiset(r)[x] == if p(x) then multiset(s)[x] else 0
  {
    if s == [] then []
    else
      assert s == [s[0]] + s[1..];
      if p(s[0]) then [s[0]] + Filter(s[1..], p) else Filter(s[1..], p)
  }

  /** Filtering keeps the relative order of what it keeps: any relation
      that holds between earlier and later elements still holds. */
  lemma {:induction false} FilterKeepsOrder<T(!new)>(s: seq<T>, p: T -> bool, le: (T, T) -> bool)
    requires SortedBy(s, le)
    ensures SortedBy(Filter(s, p), le)
  {
    if s != [] {
      var rest := Filter(s[1..], p);
      FilterKeepsOrder(s[1..], p, le);
      if p(s[0]) {
        forall k | 0 <= k < |rest| ensures le(s[0], rest[k]) {
          assert rest[k] in multiset(rest);
          assert rest[k] in multiset(s[1..]);
          var i :| 0 <= i < |s[1..]| && s[1..][i] == rest[k];
          assert le(s[0], s[i + 1]);
        }
      }
    }
  }
}
