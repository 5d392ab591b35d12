/** Sequence operations the stores are built from: `Array.prototype.filter`
    and `Array.prototype.slice(0, n)`. */
module Seqs {

  /** The elements of `s` that satisfy `p`, in their original order. */
  function Filter<T>(s: seq<T>, p: T -> bool): (r: seq<T>)
    ensures |r| <= |s|
    ensures forall i :: 0 <= i < |r| ==> r[i] in s && p(r[i])
    ensures multiset(r) <= multiset(s)
  {
    if s == [] then []
    else
      assert s == [s[0]] + s[1..];
      if p(s[0]) then [s[0]] + Filter(s[1..], p)
    else Filter(s[1..], p)
  }

  /** Nothing that satisfies `p` is dropped. */
  lemma FilterKeepsAll<T>(s: seq<T>, p: T -> bool)
    ensures forall i :: 0 <= i < |s| && p(s[i]) ==> s[i] in Filter(s, p)
  {
    forall i | 0 <= i < |s| && p(s[i]) ensures s[i] in Filter(s, p) {
      FilterKeepsCount(s, p, s[i]);
    }
  }

  /** Filtering keeps the relative order: it distributes over concatenation. */
  lemma {:induction false} FilterConcat<T>(a: seq<T>, b: seq<T>, p: T -> bool)
    ensures Filter(a + b, p) == Filter(a, p) + Filter(b, p)
  {
    if a == [] {
      assert a + b == b;
    } else {
      assert (a + b)[0] == a[0] && (a + b)[1..] == a[1..] + b;
      FilterConcat(a[1..], b, p);
      if p(a[0]) {
        calc {
          Filter(a + b, p);
          [a[0]] + Filter(a[1..] + b, p);
          [a[0]] + (Filter(a[1..], p) + Filter(b, p));
        }
      }
    }
  }

  /** An element that passes the filter keeps every one of its copies. */
  lemma {:induction false} FilterKeepsCount<T>(s: seq<T>, p: T -> bool, x: T)
    ensures multiset(Filter(s, p))[x] == if p(x) then multiset(s)[x] else 0
  {
    if s != [] {
      var rest := Filter(s[1..], p);
      FilterKeepsCount(s[1..], p, x);
      assert s == [s[0]] + s[1..];
      assert multiset(s) == multiset{s[0]} + multiset(s[1..]);
      if p(s[0]) {
        assert Filter(s, p) == [s[0]] + rest;
        assert multiset(Filter(s, p)) == multiset{s[0]} + multiset(rest);
      } else {
        assert Filter(s, p) == rest;
      }
    }
  }

  /** Filtering one more element of a prefix. */
  lemma FilterStep<T>(s: seq<T>, i: nat, p: T -> bool)
    requires i < |s|
    ensures Filter(s[..i + 1], p) == Filter(s[..i], p) + if p(s[i]) then [s[i]] else []
  {
    FilterConcat(s[..i], [s[i]], p);
    assert s[..i + 1] == s[..i] + [s[i]];
    assert Filter([s[i]], p) == if p(s[i]) then [s[i]] else [] by {
      assert [s[i]][1..] == [];
    }
  }

  lemma {:induction false} FilterAll<T>(s: seq<T>, p: T -> bool)
    requires forall i :: 0 <= i < |s| ==> p(s[i])
    ensures Filter(s, p) == s
  {
    if s != [] {
      FilterAll(s[1..], p);
    }
  }

  /** The length JavaScript's `slice(0, end)` keeps from a list of length `n`:
      a negative `end` counts back from the end of the list. */
  function SliceLength(n: nat, end: int): (k: nat)
    ensures k <= n
  {
    if end >= 0 then (if end < n then end else n)
    else if n + end > 0 then n + end else 0
  }

  /** `s.slice(0, end)`. */
  function Slice<T>(s: seq<T>, end: int): seq<T>
  {
    s[..SliceLength(|s|, end)]
  }

  /** Putting back the head of `q` in front of a text that starts with the
      rest of `q`'s first `i` elements. */
  lemma ConsPrefix<T>(q: seq<T>, i: nat, tail: seq<T>, r: seq<T>)
    requires 0 < i <= |q|
    requires r == q[1..][..i - 1] + tail
    ensures [q[0]] + r == q[..i] + tail
  {
    assert q[..i] == [q[0]] + q[1..][..i - 1];
  }

  /** No element occurs twice. */
  predicate Distinct<T(==)>(s: seq<T>) {
    forall i, j :: 0 <= i < j < |s| ==> s[i] != s[j]
  }

  lemma {:induction false} FilterKeepsDistinct<T>(s: seq<T>, p: T -> bool)
    requires Distinct(s)
    ensures Distinct(Filter(s, p))
  {
    if s != [] {
      var rest := Filter(s[1..], p);
      FilterKeepsDistinct(s[1..], p);
      if p(s[0]) {
        forall j | 0 <= j < |rest| ensures rest[j] != s[0] {
          var k :| 0 <= k < |s[1..]| && s[1..][k] == rest[j];
          assert s[k + 1] == rest[j];
        }
      }
    }
  }

  /** The first non-empty sequence of `offers`, or the empty one when there is none. */
  function FirstNonEmpty<T>(offers: seq<seq<T>>): (r: seq<T>)
    ensures r == [] <==> forall k :: 0 <= k < |offers| ==> offers[k] == []
    ensures r != [] ==> exists k :: 0 <= k < |offers| && r == offers[k] && forall m :: 0 <= m < k ==> offers[m] == []
  {
    if offers == [] then []
    else if offers[0] != [] then offers[0]
    else
      var r := FirstNonEmpty(offers[1..]);
      assert r != [] ==> exists k :: 0 <= k < |offers| && r == offers[k] && forall m :: 0 <= m < k ==> offers[m] == [] by {
        if r != [] {
          var k :| 0 <= k < |offers[1..]| && r == offers[1..][k] && forall m :: 0 <= m < k ==> offers[1..][m] == [];
          assert r == offers[k + 1];
          assert forall m :: 0 <= m < k + 1 ==> offers[m] == [] by {
            forall m | 0 < m < k + 1 ensures offers[m] == [] { assert offers[m] == offers[1..][m - 1]; }
          }
        }
      }
      r
  }

  /** The offer at `i` is the first non-empty one once all before it are empty. */
  lemma FirstNonEmptyAt<T>(offers: seq<seq<T>>, i: nat)
    requires i < |offers| && offers[i] != []
    requires forall m :: 0 <= m < i ==> offers[m] == []
    ensures FirstNonEmpty(offers) == offers[i]
  {
    var k :| 0 <= k < |offers| && FirstNonEmpty(offers) == offers[k] && forall m :: 0 <= m < k ==> offers[m] == [];
  }
}
