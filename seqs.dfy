/** The JavaScript array built-ins the app composes its updaters and views
    from: `filter`, `map`, `slice(0, n)` and `Array.from(new Set(...))`. */
module Seqs {

  /** `r` can be obtained from `s` by deleting elements: the relative order of
      what is kept does not change. */
  predicate IsSubsequence<T(==)>(r: seq<T>, s: seq<T>)
    decreases |s|
  {
    if r == [] then true
    else if s == [] then false
    else (r[0] == s[0] && IsSubsequence(r[1..], s[1..])) || IsSubsequence(r, s[1..])
  }

  /** No element occurs twice. */
  predicate NoDuplicates<T(==)>(s: seq<T>) {
    forall j, k :: 0 <= j < k < |s| ==> s[j] != s[k]
  }

  /** `Array.prototype.filter`: the elements of `s` that satisfy `p`, each as
      often as it occurs in `s`, in their original order. */
  function Filter<T(==,!new)>(s: seq<T>, p: T -> bool): (r: seq<T>)
    ensures |r| <= |s|
    ensures forall x :: x in r <==> x in s && p(x)
    ensures forall x :: multiset(r)[x] == if p(x) then multiset(s)[x] else 0
    ensures IsSubsequence(r, s)
  {
    if s == [] then []
    else
      var rest := Filter(s[1..], p);
      assert s == [s[0]] + s[1..];
      if p(s[0]) then
        assert ([s[0]] + rest)[1..] == rest;
        [s[0]] + rest
      else rest
  }

  /** `filter` over a list with a first element decides that element
      first. */
  lemma FilterCons<T(!new)>(x: T, s: seq<T>, p: T -> bool)
    ensures Filter([x] + s, p) == if p(x) then [x] + Filter(s, p) else Filter(s, p)
  {
    assert ([x] + s)[1..] == s;
  }

  /** A `filter` that every element passes returns its input. */
  lemma {:induction false} FilterAll<T(!new)>(s: seq<T>, p: T -> bool)
    ensures (forall x :: x in s ==> p(x)) ==> Filter(s, p) == s
  {
    if s != [] && forall x :: x in s ==> p(x) {
      assert s == [s[0]] + s[1..];
      FilterAll(s[1..], p);
    }
  }

  /** The conjunction of two conditions. */
  function Both<T>(p: T -> bool, q: T -> bool): T -> bool {
    x => p(x) && q(x)
  }

  /** Two `filter` calls in a row keep what one filter on both conditions
      keeps. */
  lemma {:induction false} FilterFuse<T(!new)>(s: seq<T>, p: T -> bool, q: T -> bool)
    ensures Filter(Filter(s, p), q) == Filter(s, Both(p, q))
  {
    if s != [] {
      FilterFuse(s[1..], p, q);
      if p(s[0]) {
        assert Filter(s, p) == [s[0]] + Filter(s[1..], p);
        assert ([s[0]] + Filter(s[1..], p))[1..] == Filter(s[1..], p);
      }
    }
  }

  /** `Array.prototype.map`. */
  function Map<T, U>(s: seq<T>, f: T -> U): (r: seq<U>)
    ensures |r| == |s|
    ensures forall k :: 0 <= k < |s| ==> r[k] == f(s[k])
  {
    seq(|s|, k requires 0 <= k < |s| => f(s[k]))
  }

  /** `map` over a list with a first element maps that element first. */
  lemma MapCons<T, U>(x: T, s: seq<T>, f: T -> U)
    ensures Map([x] + s, f) == [f(x)] + Map(s, f)
  {
    var l, r := Map([x] + s, f), [f(x)] + Map(s, f);
    forall k | 0 < k < |l| ensures l[k] == r[k] {
      assert ([x] + s)[k] == s[k - 1];
    }
  }

  /** `s.slice(0, n)`: the first `n` elements, or all of them when there are
      fewer. */
  function Take<T>(s: seq<T>, n: nat): (r: seq<T>)
    ensures |r| <= n && r <= s
    ensures |s| <= n ==> r == s
    ensures |s| > n ==> |r| == n
  {
    if |s| <= n then s else s[..n]
  }

  /** Whenever `r[j]` comes before `r[k]`, `r[j]` occurs in `s` before every
      occurrence of `r[k]`: the order of first occurrence in `s`. */
  predicate InFirstOccurrenceOrder<T(==)>(r: seq<T>, s: seq<T>) {
    forall j, k, b :: 0 <= j < k < |r| && 0 <= b < |s| && s[b] == r[k] ==> r[j] in s[..b]
  }

  /** `Array.from(new Set(s))`: every element of `s` once, in the order of
      first occurrence. */
  function Dedup<T(==,!new)>(s: seq<T>): (r: seq<T>)
    ensures NoDuplicates(r)
    ensures forall x :: x in r <==> x in s
    ensures IsSubsequence(r, s)
    ensures InFirstOccurrenceOrder(r, s)
  {
    DedupAfter(s, {})
  }

  /** A list without duplicates is its own `Array.from(new Set(...))`. */
  lemma {:induction false} DedupOfDistinct<T(!new)>(s: seq<T>, seen: set<T>)
    requires NoDuplicates(s)
    requires forall x :: x in s ==> x !in seen
    ensures DedupAfter(s, seen) == s
    decreases |s|
  {
    if s != [] {
      assert s == [s[0]] + s[1..];
      forall x | x in s[1..] ensures x !in seen + {s[0]} {
        var k :| 0 <= k < |s[1..]| && s[1..][k] == x;
        assert s[k + 1] == x;
      }
      DedupOfDistinct(s[1..], seen + {s[0]});
    }
  }

  /** The elements of `s` not yet in `seen`, each once, in the order a `Set`
      that already holds `seen` would record them. */
  function DedupAfter<T(==,!new)>(s: seq<T>, seen: set<T>): (r: seq<T>)
    ensures NoDuplicates(r)
    ensures forall x :: x in r <==> x in s && x !in seen
    ensures IsSubsequence(r, s)
    ensures InFirstOccurrenceOrder(r, s)
    decreases |s|
  {
    if s == [] then []
    else
      assert s == [s[0]] + s[1..];
      if s[0] in seen then
        var r := DedupAfter(s[1..], seen);
        assert InFirstOccurrenceOrder(r, s) by {
          forall j, k, b | 0 <= j < k < |r| && 0 < b < |s| && s[b] == r[k]
            ensures r[j] in s[..b]
          {
            assert s[1..][b - 1] == r[k];
            assert s[1..][..b - 1] == s[1..b];
          }
        }
        r
      else
        var rest := DedupAfter(s[1..], seen + {s[0]});
        var r := [s[0]] + rest;
        assert r[1..] == rest;
        assert InFirstOccurrenceOrder(r, s) by {
          forall j, k, b | 0 <= j < k < |r| && 0 < b < |s| && s[b] == r[k]
            ensures r[j] in s[..b]
          {
            if j == 0 {
              assert s[..b][0] == s[0];
            } else {
              assert s[1..][b - 1] == rest[k - 1];
              assert s[1..][..b - 1] == s[1..b];
            }
          }
        }
        r
  }
}
