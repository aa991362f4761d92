// The order of strings and numbers in which the indexes list addresses and ports, and why a sorted
// list of a set is unique.
module Ordering {

  /** Lexicographic order, as Go compares strings. */
  predicate Less(a: string, b: string) {
    b != [] && (a == [] || a[0] < b[0] || (a[0] == b[0] && Less(a[1..], b[1..])))
  }

  /** One string is before another when it is a proper prefix of it or smaller where they first differ. */
  lemma {:induction false} LessIff(a: string, b: string)
    ensures Less(a, b) <==> exists n :: DifferAt(a, b, n) && (n == |a| || a[n] < b[n])
  {
    if a == [] {
      if b != [] { assert DifferAt(a, b, 0); }
    } else if b != [] {
      LessIff(a[1..], b[1..]);
      if a[0] != b[0] {
        assert DifferAt(a, b, 0);
        forall n | DifferAt(a, b, n) ensures n == 0 {
          assert forall i | 0 <= i < n :: a[..n][i] == a[i] && b[..n][i] == b[i];
        }
      } else {
        forall n | DifferAt(a[1..], b[1..], n) ensures DifferAt(a, b, n + 1) {
          assert a[..n + 1] == [a[0]] + a[1..][..n] && b[..n + 1] == [b[0]] + b[1..][..n];
        }
        forall n | DifferAt(a, b, n) ensures n > 0 && DifferAt(a[1..], b[1..], n - 1) {
          assert n > 0 ==> a[1..][..n - 1] == a[..n][1..] && b[1..][..n - 1] == b[..n][1..];
        }
        if Less(a, b) {
          var n :| DifferAt(a[1..], b[1..], n) && (n == |a[1..]| || a[1..][n] < b[1..][n]);
          assert DifferAt(a, b, n + 1);
        }
        if n :| DifferAt(a, b, n) && (n == |a| || a[n] < b[n]) {
          assert DifferAt(a[1..], b[1..], n - 1);
        }
      }
    }
  }

  /** The strings agree up to n, where the second goes on and the first ends or goes on differently. */
  ghost predicate DifferAt(a: string, b: string, n: int) {
    0 <= n <= |a| && n < |b| && a[..n] == b[..n] && (n < |a| ==> a[n] != b[n])
  }

  lemma {:induction false} LessTransitive(a: string, b: string, c: string)
    requires Less(a, b) && Less(b, c)
    ensures Less(a, c)
  {
    if a != [] && a[0] == b[0] == c[0] {
      LessTransitive(a[1..], b[1..], c[1..]);
    }
  }

  lemma {:induction false} LessTotal(a: string, b: string)
    ensures Less(a, b) || a == b || Less(b, a)
    ensures !(Less(a, b) && Less(b, a)) && !Less(a, a)
  {
    if a != [] {
      LessIrreflexive(a);
      if b != [] && a[0] == b[0] {
        LessTotal(a[1..], b[1..]);
        assert a == [a[0]] + a[1..] && b == [b[0]] + b[1..];
      }
    }
  }

  lemma {:induction false} LessIrreflexive(a: string)
    ensures !Less(a, a)
  {
    if a != [] { LessIrreflexive(a[1..]); }
  }

  ghost predicate Sorted(s: seq<string>) {
    forall i, j | 0 <= i < j < |s| :: Less(s[i], s[j])
  }

  ghost predicate Ascending(s: seq<int>) {
    forall i, j | 0 <= i < j < |s| :: s[i] < s[j]
  }

  lemma NoElements<T>(s: seq<T>)
    ensures s == [] <==> forall x :: x !in s
  {
    if s != [] { assert s[0] in s; }
  }

  /** A sorted list is determined by its elements. */
  lemma {:induction false} SortedUnique(a: seq<string>, b: seq<string>)
    requires Sorted(a) && Sorted(b) && forall x :: x in a <==> x in b
    ensures a == b
  {
    NoElements(a);
    NoElements(b);
    if a != [] {
      assert a[0] in b && b != [] && b[0] in a;
      SortedHead(a, b[0]);
      SortedHead(b, a[0]);
      LessTotal(a[0], b[0]);
      SortedTail(a);
      SortedTail(b);
      SortedUnique(a[1..], b[1..]);
      assert a == [a[0]] + a[1..] && b == [b[0]] + b[1..];
    }
  }

  lemma SortedHead(s: seq<string>, x: string)
    requires Sorted(s) && x in s
    ensures x == s[0] || Less(s[0], x)
  {
  }

  lemma SortedTail(s: seq<string>)
    requires Sorted(s) && s != []
    ensures Sorted(s[1..]) && forall x :: x in s[1..] <==> x in s && x != s[0]
  {
    hide Less;
    forall i | 0 < i < |s| ensures s[i] != s[0] { LessIrreflexive(s[0]); }
    assert s == [s[0]] + s[1..];
  }

  lemma {:induction false} AscendingUnique(a: seq<int>, b: seq<int>)
    requires Ascending(a) && Ascending(b) && forall x :: x in a <==> x in b
    ensures a == b
  {
    NoElements(a);
    NoElements(b);
    if a != [] {
      assert a[0] in b && b != [] && b[0] in a;
      assert a[0] == b[0];
      assert forall x :: x in a[1..] <==> x in a && x != a[0];
      assert forall x :: x in b[1..] <==> x in b && x != b[0];
      AscendingUnique(a[1..], b[1..]);
    }
  }

  /** Puts a new string in its place. */
  function Insert(s: seq<string>, x: string): (r: seq<string>)
    requires Sorted(s) && x !in s
    ensures Sorted(r) && forall y :: y in r <==> y in s || y == x
    decreases |s|
  {
    if s == [] then [x]
    else if Less(x, s[0]) then InsertFirst(s, x); [x] + s
    else
      SortedTail(s);
      var r := Insert(s[1..], x);
      InsertLater(s, x, r);
      [s[0]] + r
  }

  lemma InsertFirst(s: seq<string>, x: string)
    requires Sorted(s) && s != [] && Less(x, s[0])
    ensures Sorted([x] + s)
  {
    hide Less;
    forall i | 0 <= i < |s| ensures Less(x, s[i]) {
      if i > 0 { LessTransitive(x, s[0], s[i]); }
    }
  }

  lemma InsertLater(s: seq<string>, x: string, r: seq<string>)
    requires Sorted(s) && s != [] && x !in s && !Less(x, s[0])
    requires Sorted(r) && forall y :: y in r <==> y in s[1..] || y == x
    ensures Sorted([s[0]] + r) && forall y :: y in [s[0]] + r <==> y in s || y == x
  {
    hide Less;
    LessTotal(x, s[0]);
    forall i | 0 <= i < |r| ensures Less(s[0], r[i]) {
      assert r[i] in r;
      if r[i] != x { assert r[i] in s[1..]; }
    }
    assert s == [s[0]] + s[1..];
  }

  /** The elements of a set, sorted. */
  method SortStrings(xs: set<string>) returns (s: seq<string>)
    ensures Sorted(s) && forall x :: x in s <==> x in xs
  {
    hide Less, Insert;
    s := [];
    var todo := xs;
    while todo != {}
      invariant todo <= xs && Sorted(s) && forall x :: x in s <==> x in xs - todo
      decreases |todo|
    {
      var x :| x in todo;
      s := Insert(s, x);
      todo := todo - {x};
    }
  }

  function InsertInt(s: seq<int>, x: int): (r: seq<int>)
    requires Ascending(s) && x !in s
    ensures Ascending(r) && forall y :: y in r <==> y in s || y == x
    decreases |s|
  {
    if s == [] then [x]
    else if x < s[0] then [x] + s
    else
      assert s[0] in s && forall i | 0 < i < |s| :: s[i] in s[1..];
      var r := InsertInt(s[1..], x);
      InsertIntLater(s, x, r);
      [s[0]] + r
  }

  lemma InsertIntLater(s: seq<int>, x: int, r: seq<int>)
    requires Ascending(s) && s != [] && x > s[0]
    requires Ascending(r) && forall y :: y in r <==> y in s[1..] || y == x
    ensures Ascending([s[0]] + r) && forall y :: y in [s[0]] + r <==> y in s || y == x
  {
    forall i | 0 <= i < |r| ensures s[0] < r[i] {
      assert r[i] in r;
      if r[i] != x { assert r[i] in s[1..]; }
    }
    assert s == [s[0]] + s[1..];
  }

  /** A list of distinct numbers, sorted. */
  method SortInts(xs: seq<int>) returns (s: seq<int>)
    requires forall i, j | 0 <= i < j < |xs| :: xs[i] != xs[j]
    ensures Ascending(s) && forall x :: x in s <==> x in xs
  {
    s := [];
    for i := 0 to |xs|
      invariant Ascending(s) && forall x :: x in s <==> x in xs[..i]
    {
      s := InsertInt(s, xs[i]);
    }
    assert xs[..|xs|] == xs;
  }

  // ----- walking a map -----

  /** An order in which a map with these keys can be walked. */
  ghost predicate Walk(order: seq<string>, keys: set<string>) {
    && (forall i, j | 0 <= i < j < |order| :: order[i] != order[j])
    && (forall k :: k in order <==> k in keys)
  }

  lemma {:induction false} SomeWalk(keys: set<string>) returns (order: seq<string>)
    ensures Walk(order, keys)
    decreases |keys|
  {
    order := [];
    if keys != {} {
      var k :| k in keys;
      order := SomeWalk(keys - {k});
      order := order + [k];
    }
  }

  lemma WalkEndingIn(keys: set<string>, k: string) returns (before: seq<string>)
    requires k in keys
    ensures Walk(before + [k], keys) && Walk(before, keys - {k})
  {
    before := SomeWalk(keys - {k});
  }

  lemma WalkStartingWith(keys: set<string>, k: string) returns (rest: seq<string>)
    requires k in keys
    ensures Walk([k] + rest, keys)
  {
    rest := SomeWalk(keys - {k});
    assert forall i | 0 < i < |[k] + rest| :: ([k] + rest)[i] == rest[i - 1] && rest[i - 1] in rest;
  }

  lemma WalkNext(order: seq<string>, keys: set<string>, k: string)
    requires Walk(order, keys) && k !in keys
    ensures Walk(order + [k], keys + {k})
  {
  }
}
