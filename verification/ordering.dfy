/** Python's string order (code point by code point, a proper prefix first)
    and the sorting the source applies to directory listings
    (`sorted(path.iterdir())`). */
module Ordering {

  /** `a < b` on Python strings. */
  predicate StrLt(a: string, b: string)
    decreases |a|
  {
    if |a| == 0 then |b| > 0
    else if |b| == 0 then false
    else if a[0] != b[0] then a[0] < b[0]
    else StrLt(a[1..], b[1..])
  }

  predicate StrLe(a: string, b: string) {
    a == b || StrLt(a, b)
  }

  lemma {:induction false} StrLtIrreflexive(a: string)
    ensures !StrLt(a, a)
    decreases |a|
  {
    if |a| > 0 {
      StrLtIrreflexive(a[1..]);
    }
  }

  lemma {:induction false} StrLtTransitive(a: string, b: string, c: string)
    requires StrLt(a, b) && StrLt(b, c)
    ensures StrLt(a, c)
    decreases |a|
  {
    if |a| > 0 && a[0] == b[0] && b[0] == c[0] {
      StrLtTransitive(a[1..], b[1..], c[1..]);
    }
  }

  lemma {:induction false} StrLtTotal(a: string, b: string)
    ensures a == b || StrLt(a, b) || StrLt(b, a)
    decreases |a|
  {
    if |a| > 0 && |b| > 0 && a[0] == b[0] {
      StrLtTotal(a[1..], b[1..]);
      if a[1..] == b[1..] {
        assert a == [a[0]] + a[1..] && b == [b[0]] + b[1..];
      }
    }
  }

  lemma StrLtAsymmetric(a: string, b: string)
    requires StrLt(a, b)
    ensures !StrLt(b, a) && a != b
  {
    if StrLt(b, a) {
      StrLtTransitive(a, b, a);
      StrLtIrreflexive(a);
    }
    StrLtIrreflexive(a);
  }

  lemma StrLeTransitive(a: string, b: string, c: string)
    requires StrLe(a, b) && StrLe(b, c)
    ensures StrLe(a, c)
  {
    if StrLt(a, b) && StrLt(b, c) {
      StrLtTransitive(a, b, c);
    }
  }

  /** When `a < b` fails, `b <= a`. */
  lemma StrNotLt(a: string, b: string)
    requires !StrLt(a, b)
    ensures StrLe(b, a)
  {
    StrLtTotal(a, b);
  }

  // --------------------------------------------------------------- sorting

  ghost predicate SortedBy<T>(s: seq<T>, key: T -> string) {
    forall i, j :: 0 <= i < j < |s| ==> StrLe(key(s[i]), key(s[j]))
  }

  lemma TailSorted<T>(s: seq<T>, key: T -> string)
    requires |s| > 0 && SortedBy(s, key)
    ensures SortedBy(s[1..], key)
  {
    forall i, j | 0 <= i < j < |s| - 1 ensures StrLe(key(s[1..][i]), key(s[1..][j])) {
      assert s[1..][i] == s[i + 1] && s[1..][j] == s[j + 1];
    }
  }

  /** An element no larger than the head of a sorted list may go in front. */
  lemma ConsSorted<T>(x: T, s: seq<T>, key: T -> string)
    requires SortedBy(s, key)
    requires forall j :: 0 <= j < |s| ==> StrLe(key(x), key(s[j]))
    ensures SortedBy([x] + s, key)
  {
    var r := [x] + s;
    forall i, j | 0 <= i < j < |r| ensures StrLe(key(r[i]), key(r[j])) {
      assert r[j] == s[j - 1];
      if i > 0 { assert r[i] == s[i - 1]; }
    }
  }

  lemma HeadBelowAll<T>(x: T, s: seq<T>, key: T -> string)
    requires |s| > 0 && SortedBy(s, key) && StrLe(key(x), key(s[0]))
    ensures forall j :: 0 <= j < |s| ==> StrLe(key(x), key(s[j]))
  {
    forall j | 0 <= j < |s| ensures StrLe(key(x), key(s[j])) {
      if j > 0 { StrLeTransitive(key(x), key(s[0]), key(s[j])); }
    }
  }

  /** The head of a sorted list is below every element of a rearrangement of
      its tail with a larger element added. */
  lemma HeadBelowInserted<T>(x: T, s: seq<T>, t: seq<T>, key: T -> string)
    requires |s| > 0 && SortedBy(s, key) && StrLe(key(s[0]), key(x))
    requires multiset(t) == multiset(s[1..]) + multiset{x}
    ensures forall j :: 0 <= j < |t| ==> StrLe(key(s[0]), key(t[j]))
  {
    forall j | 0 <= j < |t| ensures StrLe(key(s[0]), key(t[j])) {
      assert t[j] in multiset(t);
      if t[j] != x {
        assert t[j] in multiset(s[1..]);
        var k :| 0 <= k < |s| - 1 && s[1..][k] == t[j];
        assert s[k + 1] == t[j];
      }
    }
  }

  /** Insert `x` in front of the first element whose key is not smaller. */
  function InsertBy<T>(x: T, s: seq<T>, key: T -> string): (r: seq<T>)
    requires SortedBy(s, key)
    ensures multiset(r) == multiset(s) + multiset{x}
    ensures |r| == |s| + 1
    ensures SortedBy(r, key)
    decreases |s|
  {
    if |s| == 0 then [x]
    else if StrLe(key(x), key(s[0])) then
      HeadBelowAll(x, s, key);
      ConsSorted(x, s, key);
      [x] + s
    else
      StrNotLt(key(x), key(s[0]));
      TailSorted(s, key);
      var t := InsertBy(x, s[1..], key);
      assert s == [s[0]] + s[1..];
      HeadBelowInserted(x, s, t, key);
      ConsSorted(s[0], t, key);
      [s[0]] + t
  }

  /** Ascending sort by `key` (insertion sort). */
  function SortBy<T>(s: seq<T>, key: T -> string): (r: seq<T>)
    ensures multiset(r) == multiset(s)
    ensures |r| == |s|
    ensures SortedBy(r, key)
    decreases |s|
  {
    if |s| == 0 then []
    else
      assert s == [s[0]] + s[1..];
      InsertBy(s[0], SortBy(s[1..], key), key)
  }

  function Reverse<T>(s: seq<T>): (r: seq<T>)
    ensures |r| == |s|
    ensures forall i :: 0 <= i < |s| ==> r[i] == s[|s| - 1 - i]
  {
    if |s| == 0 then [] else Reverse(s[1..]) + [s[0]]
  }

  lemma ReverseMultiset<T>(s: seq<T>)
    ensures multiset(Reverse(s)) == multiset(s)
  {
    if |s| > 0 {
      ReverseMultiset(s[1..]);
      assert s == [s[0]] + s[1..];
    }
  }

  /** Keep the elements satisfying `p`, in order (a list comprehension with an `if`). */
  function Filter<T>(s: seq<T>, p: T -> bool): (r: seq<T>)
    ensures |r| <= |s|
    ensures forall x :: x in r ==> x in s && p(x)
    ensures forall x :: x in s && p(x) ==> x in r
    ensures forall i :: 0 <= i < |r| ==> p(r[i])
    decreases |s|
  {
    if |s| == 0 then []
    else if p(s[0]) then [s[0]] + Filter(s[1..], p)
    else Filter(s[1..], p)
  }

  /** Filtering by two predicates that agree everywhere gives the same result. */
  lemma {:induction false} FilterSame<T>(s: seq<T>, p: T -> bool, q: T -> bool)
    requires forall x :: p(x) == q(x)
    ensures Filter(s, p) == Filter(s, q)
    decreases |s|
  {
    if |s| > 0 {
      FilterSame(s[1..], p, q);
    }
  }

  lemma FilterCons<T>(x: T, s: seq<T>, p: T -> bool)
    ensures Filter([x] + s, p) == (if p(x) then [x] else []) + Filter(s, p)
  {
    assert ([x] + s)[1..] == s;
  }

  /** Filtering keeps every passing element as often as it occurs and drops
      every other one. */
  lemma {:induction false} FilterCount<T>(s: seq<T>, p: T -> bool, x: T)
    ensures multiset(Filter(s, p))[x] == if p(x) then multiset(s)[x] else 0
    decreases |s|
  {
    if |s| > 0 {
      FilterCount(s[1..], p, x);
      FilterCons(s[0], s[1..], p);
      assert s == [s[0]] + s[1..];
    }
  }

  /** Filtering a sorted list keeps it sorted. */
  lemma {:induction false} FilterSorted<T>(s: seq<T>, key: T -> string, p: T -> bool)
    requires SortedBy(s, key)
    ensures SortedBy(Filter(s, p), key)
    decreases |s|
  {
    if |s| > 0 {
      TailSorted(s, key);
      FilterSorted(s[1..], key, p);
      var ft := Filter(s[1..], p);
      if p(s[0]) {
        forall j | 0 <= j < |ft| ensures StrLe(key(s[0]), key(ft[j])) {
          assert ft[j] in s[1..];
          var k :| 0 <= k < |s| - 1 && s[1..][k] == ft[j];
          assert s[k + 1] == ft[j];
        }
        ConsSorted(s[0], ft, key);
      }
    }
  }

  /** Filtering commutes with insertion into a sorted list. */
  lemma {:induction false} FilterInsertBy<T>(x: T, s: seq<T>, key: T -> string, p: T -> bool)
    requires SortedBy(s, key)
    ensures SortedBy(Filter(s, p), key)
    ensures Filter(InsertBy(x, s, key), p)
         == (if p(x) then InsertBy(x, Filter(s, p), key) else Filter(s, p))
    decreases |s|
  {
    FilterSorted(s, key, p);
    if |s| > 0 {
      FilterInsertBy(x, s[1..], key, p);
      var fs := Filter(s, p);
      if !StrLe(key(x), key(s[0])) {
        StrNotLt(key(x), key(s[0]));
        StrLtAsymmetric(key(s[0]), key(x));
      } else if p(x) && |fs| > 0 {
        assert fs[0] in s;
        assert StrLe(key(x), key(fs[0])) by {
          var k :| 0 <= k < |s| && s[k] == fs[0];
          if k > 0 { StrLeTransitive(key(x), key(s[0]), key(s[k])); }
        }
      }
    }
  }

  /** Sorting then filtering equals filtering then sorting. */
  lemma {:induction false} FilterSortBy<T>(s: seq<T>, key: T -> string, p: T -> bool)
    ensures Filter(SortBy(s, key), p) == SortBy(Filter(s, p), key)
    decreases |s|
  {
    if |s| > 0 {
      FilterSortBy(s[1..], key, p);
      FilterInsertBy(s[0], SortBy(s[1..], key), key, p);
    }
  }

  /** `a` is `b` with some elements left out, the rest kept in order. */
  predicate IsSubsequence<T(==)>(a: seq<T>, b: seq<T>)
    decreases |b|
  {
    if |a| == 0 then true
    else if |b| == 0 then false
    else if a[0] == b[0] then IsSubsequence(a[1..], b[1..])
    else IsSubsequence(a, b[1..])
  }

  lemma {:induction false} FilterIsSubsequence<T>(s: seq<T>, p: T -> bool)
    ensures IsSubsequence(Filter(s, p), s)
    decreases |s|
  {
    if |s| > 0 {
      FilterIsSubsequence(s[1..], p);
    }
  }
}
