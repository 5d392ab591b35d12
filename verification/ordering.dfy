/** Orders used by the two stores' "ORDER BY priority DESC, created" rules:
    the text order on timestamps, and sorting by a strict weak order. */
module Ordering {

  /** Lexicographic order on text, as SQLite's BINARY collation compares
      TEXT values and as same-format ISO-8601 timestamps order in time. */
  predicate TextLess(a: string, b: string) {
    if a == [] then b != []
    else if b == [] then false
    else a[0] < b[0] || (a[0] == b[0] && TextLess(a[1..], b[1..]))
  }

  lemma {:induction false} TextLessIrreflexive(a: string)
    ensures !TextLess(a, a)
  {
    if a != [] { TextLessIrreflexive(a[1..]); }
  }

  lemma {:induction false} TextLessTransitive(a: string, b: string, c: string)
    requires TextLess(a, b) && TextLess(b, c)
    ensures TextLess(a, c)
  {
    if a != [] && b != [] && c != [] && a[0] == b[0] == c[0] {
      TextLessTransitive(a[1..], b[1..], c[1..]);
    }
  }

  lemma {:induction false} TextLessAsymmetric(a: string, b: string)
    requires TextLess(a, b)
    ensures !TextLess(b, a)
  {
    if a != [] && b != [] && a[0] == b[0] {
      TextLessAsymmetric(a[1..], b[1..]);
    }
  }

  /** Any two different texts are ordered one way or the other. */
  lemma {:induction false} TextLessTotal(a: string, b: string)
    ensures a == b || TextLess(a, b) || TextLess(b, a)
  {
    if a != [] && b != [] && a[0] == b[0] {
      TextLessTotal(a[1..], b[1..]);
      if a[1..] == b[1..] {
        assert a == [a[0]] + a[1..] && b == [b[0]] + b[1..];
      }
    }
  }

  /** `before` is a strict weak order: never both ways, and "not after" is
      transitive. Every sort key made of comparable parts is one. */
  ghost predicate StrictWeakOrder<T(!new)>(before: (T, T) -> bool) {
    && (forall a, b :: before(a, b) ==> !before(b, a))
    && (forall a, b, c :: !before(b, a) && !before(c, b) ==> !before(c, a))
  }

  /** No element of `s` comes strictly before an earlier one. */
  ghost predicate SortedBy<T>(s: seq<T>, before: (T, T) -> bool) {
    forall i, j :: 0 <= i < j < |s| ==> !before(s[j], s[i])
  }

  /** `x` placed after every element of the sorted `s` that comes strictly before it. */
  function InsertBy<T(!new)>(x: T, s: seq<T>, before: (T, T) -> bool): (r: seq<T>)
    requires StrictWeakOrder(before)
    ensures multiset(r) == multiset(s) + multiset{x}
    ensures |r| == |s| + 1
    ensures SortedBy(s, before) ==> SortedBy(r, before)
  {
    if s == [] then [x]
    else if before(s[0], x) then
      var rest := InsertBy(x, s[1..], before);
      assert s == [s[0]] + s[1..];
      HeadStaysFirst(x, s, rest, before);
      [s[0]] + rest
    else
      InsertedFirst(x, s, before);
      [x] + s
  }

  /** When the head of the sorted `s` comes before `x`, nothing of the rest
      with `x` inserted comes before that head. */
  lemma HeadStaysFirst<T(!new)>(x: T, s: seq<T>, rest: seq<T>, before: (T, T) -> bool)
    requires StrictWeakOrder(before) && s != [] && before(s[0], x)
    requires multiset(rest) == multiset(s[1..]) + multiset{x}
    ensures SortedBy(s, before) ==> forall k :: 0 <= k < |rest| ==> !before(rest[k], s[0])
  {
    if SortedBy(s, before) {
      forall k | 0 <= k < |rest| ensures !before(rest[k], s[0]) {
        assert rest[k] in multiset(s[1..]) + multiset{x};
        if rest[k] in multiset(s[1..]) {
          var m :| 0 <= m < |s[1..]| && s[1..][m] == rest[k];
          assert s[m + 1] == rest[k];
        }
      }
    }
  }

  /** When the head of the sorted `s` does not come before `x`, nothing of
      `s` does. */
  lemma InsertedFirst<T(!new)>(x: T, s: seq<T>, before: (T, T) -> bool)
    requires StrictWeakOrder(before) && s != [] && !before(s[0], x)
    ensures SortedBy(s, before) ==> forall k :: 0 <= k < |s| ==> !before(s[k], x)
  {
    if SortedBy(s, before) {
      forall k | 0 <= k < |s| ensures !before(s[k], x) {
        if k > 0 { assert !before(s[k], s[0]); }
      }
    }
  }

  /** Insertion sort: a permutation of `s` that is sorted by `before`. */
  function SortBy<T(!new)>(s: seq<T>, before: (T, T) -> bool): (r: seq<T>)
    requires StrictWeakOrder(before)
    ensures multiset(r) == multiset(s)
    ensures |r| == |s|
    ensures SortedBy(r, before)
  {
    if s == [] then []
    else
      assert s == [s[0]] + s[1..];
      InsertBy(s[0], SortBy(s[1..], before), before)
  }

  /** A prefix of a sorted sequence holds its first elements: anything of `s`
      that comes strictly before a kept element is kept too. */
  lemma {:induction false} PrefixIsTop<T>(s: seq<T>, n: nat, before: (T, T) -> bool, x: T, y: T)
    requires n <= |s| && SortedBy(s, before)
    requires x in s[..n] && y in s && before(y, x)
    ensures y in s[..n]
  {
    var a :| 0 <= a < n && s[a] == x;
    var b :| 0 <= b < |s| && s[b] == y;
    assert b < n;
    assert s[..n][b] == y;
  }

  /** A prefix of a sorted sequence is sorted and is drawn from it. */
  lemma SortedPrefix<T>(s: seq<T>, n: nat, before: (T, T) -> bool)
    requires n <= |s| && SortedBy(s, before)
    ensures SortedBy(s[..n], before)
    ensures multiset(s[..n]) <= multiset(s)
  {
    assert s == s[..n] + s[n..];
  }
}
