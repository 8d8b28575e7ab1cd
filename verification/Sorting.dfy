/** Sorting by an order that may leave ties, as `sort_by_key` does on a list
    whose incoming order is not known. */
module Sorting {

  ghost predicate TotalPreorder<T(!new)>(le: (T, T) -> bool) {
    && (forall a, b :: le(a, b) || le(b, a))
    && (forall a, b, c :: le(a, b) && le(b, c) ==> le(a, c))
  }

  ghost predicate Ordered<T>(s: seq<T>, le: (T, T) -> bool) {
    forall i, j :: 0 <= i < j < |s| ==> le(s[i], s[j])
  }

  function Elements<T>(s: seq<T>): set<T> {
    set x | x in s
  }

  ghost predicate Distinct<T>(s: seq<T>) {
    forall i, j :: 0 <= i < j < |s| ==> s[i] != s[j]
  }

  /** The part of `s` up to `at` comes before `x`, and `x` before the rest. */
  lemma Between<T(!new)>(s: seq<T>, x: T, at: nat, le: (T, T) -> bool)
    requires TotalPreorder(le) && Ordered(s, le) && at <= |s|
    requires at > 0 ==> le(s[at - 1], x)
    requires at < |s| ==> le(x, s[at])
    ensures forall i :: 0 <= i < at ==> le(s[i], x)
    ensures forall j :: at <= j < |s| ==> le(x, s[j])
  {
    forall i | 0 <= i < at ensures le(s[i], x) {
      assert i < at - 1 ==> le(s[i], s[at - 1]);
    }
    forall j | at <= j < |s| ensures le(x, s[j]) {
      assert at < j ==> le(s[at], s[j]);
    }
  }

  lemma Inserted<T>(s: seq<T>, x: T, at: nat, le: (T, T) -> bool)
    requires Ordered(s, le) && at <= |s|
    requires forall i :: 0 <= i < at ==> le(s[i], x)
    requires forall j :: at <= j < |s| ==> le(x, s[j])
    ensures Ordered(s[..at] + [x] + s[at..], le)
  {
    var t := s[..at] + [x] + s[at..];
    forall i, j | 0 <= i < j < |t| ensures le(t[i], t[j]) {
      assert t[i] == if i < at then s[i] else if i == at then x else s[i - 1];
      assert t[j] == if j < at then s[j] else if j == at then x else s[j - 1];
    }
  }

  /** Put `x` behind everything that may come before it. */
  method Insert<T(!new)>(s: seq<T>, x: T, le: (T, T) -> bool) returns (t: seq<T>)
    requires TotalPreorder(le) && Ordered(s, le)
    ensures Ordered(t, le) && multiset(t) == multiset(s) + multiset{x}
  {
    var at := |s|;
    while at > 0 && !le(s[at - 1], x)
      invariant 0 <= at <= |s|
      invariant at < |s| ==> le(x, s[at])
    {
      at := at - 1;
    }
    Between(s, x, at, le);
    Inserted(s, x, at, le);
    assert s == s[..at] + s[at..];
    t := s[..at] + [x] + s[at..];
  }

  /** The library's sort: the same elements, in order. */
  method Sort<T(!new)>(s: seq<T>, le: (T, T) -> bool) returns (t: seq<T>)
    requires TotalPreorder(le)
    ensures Ordered(t, le) && multiset(t) == multiset(s)
  {
    t := [];
    var i := 0;
    while i < |s|
      invariant 0 <= i <= |s|
      invariant Ordered(t, le) && multiset(t) == multiset(s[..i])
    {
      t := Insert(t, s[i], le);
      assert s[..i + 1] == s[..i] + [s[i]];
      i := i + 1;
    }
    assert s[..i] == s;
  }

  /** The elements of a set, in some order. */
  method Listed<T(==)>(items: set<T>) returns (s: seq<T>)
    ensures Distinct(s) && Elements(s) == items && |s| == |items|
  {
    s := [];
    var rest := items;
    while rest != {}
      invariant rest <= items && Distinct(s) && Elements(s) == items - rest
      invariant |s| + |rest| == |items|
      decreases rest
    {
      var x :| x in rest;
      assert x !in Elements(s);
      assert Elements(s + [x]) == Elements(s) + {x};
      s := s + [x];
      rest := rest - {x};
    }
  }

  lemma {:induction false} DistinctCount<T>(s: seq<T>)
    ensures Distinct(s) ==> |Elements(s)| == |s|
    ensures |Elements(s)| <= |s|
  {
    if s != [] {
      var init := s[..|s| - 1];
      DistinctCount(init);
      assert s == init + [s[|s| - 1]];
      assert Elements(s) == Elements(init) + {s[|s| - 1]};
      if Distinct(s) {
        forall i | 0 <= i < |init| ensures init[i] != s[|s| - 1] {}
        assert s[|s| - 1] !in Elements(init);
      }
    }
  }

  lemma PermutedDistinct<T>(s: seq<T>, t: seq<T>)
    requires multiset(t) == multiset(s) && Distinct(s)
    ensures Distinct(t) && Elements(t) == Elements(s) && |t| == |s|
  {
    forall x ensures x in t <==> x in s {
      assert x in multiset(t) <==> x in multiset(s);
    }
    assert |multiset(t)| == |multiset(s)|;
    if !Distinct(t) {
      var i, j :| 0 <= i < j < |t| && t[i] == t[j];
      Twice(t, i, j);
      Once(s, t[i]);
    }
  }

  lemma Twice<T>(t: seq<T>, i: nat, j: nat)
    requires i < j < |t| && t[i] == t[j]
    ensures multiset(t)[t[i]] >= 2
  {
    assert t == t[..j] + [t[j]] + t[j + 1..];
    assert t[i] == t[..j][i];
    assert t[i] in multiset(t[..j]);
  }

  lemma {:induction false} Once<T>(s: seq<T>, x: T)
    requires Distinct(s)
    ensures multiset(s)[x] <= 1
  {
    if s != [] {
      var init, last := s[..|s| - 1], s[|s| - 1];
      assert s == init + [last];
      Once(init, x);
      if last == x {
        assert x !in init;
      }
    }
  }

  /** A relation that "cuts" a set: everything removed comes at or before
      everything kept. */
  ghost predicate Cut<T(!new)>(items: set<T>, removed: set<T>, le: (T, T) -> bool) {
    removed <= items && forall r, k :: r in removed && k in items && k !in removed ==> le(r, k)
  }

  /** The first `n` of a sorted listing are a cut of exactly `n` items. */
  lemma PrefixCuts<T(!new)>(items: set<T>, t: seq<T>, n: nat, le: (T, T) -> bool)
    requires Ordered(t, le) && Distinct(t) && Elements(t) == items && n <= |t|
    ensures Cut(items, Elements(t[..n]), le) && |Elements(t[..n])| == n
  {
    DistinctCount(t[..n]);
    forall r, k | r in Elements(t[..n]) && k in items && k !in Elements(t[..n]) ensures le(r, k) {
      var i :| 0 <= i < n && t[i] == r;
      var j :| 0 <= j < |t| && t[j] == k;
      assert forall m :: 0 <= m < n ==> t[..n][m] == t[m];
    }
  }
}
