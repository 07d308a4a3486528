/** What the standard sort promises, and the canonical order of a set of names. */
module Sorting {
  import opened Text

  ghost predicate Preorder<T(!new)>(leq: (T, T) -> bool) {
    && (forall a, b :: leq(a, b) || leq(b, a))
    && forall a, b, c :: leq(a, b) && leq(b, c) ==> leq(a, c)
  }

  ghost predicate SortedBy<T>(leq: (T, T) -> bool, s: seq<T>) {
    forall i, j :: 0 <= i < j < |s| ==> leq(s[i], s[j])
  }

  /** The library sort: a sorted permutation; the order of equal elements is left open. */
  method Sort<T(!new)>(s: seq<T>, leq: (T, T) -> bool) returns (sorted: seq<T>)
    requires Preorder(leq)
    ensures SortedBy(leq, sorted)
    ensures multiset(sorted) == multiset(s)
  {
    sorted := [];
    for i := 0 to |s|
      invariant SortedBy(leq, sorted) && multiset(sorted) == multiset(s[..i])
    {
      assert s[..i + 1] == s[..i] + [s[i]];
      sorted := Insert(sorted, s[i], leq);
    }
    assert s[..|s|] == s;
  }

  method Insert<T(!new)>(s: seq<T>, x: T, leq: (T, T) -> bool) returns (r: seq<T>)
    requires Preorder(leq) && SortedBy(leq, s)
    ensures SortedBy(leq, r) && multiset(r) == multiset(s) + multiset{x}
  {
    var k := |s|;
    while k > 0 && !leq(s[k - 1], x)
      invariant 0 <= k <= |s|
      invariant forall j :: k <= j < |s| ==> leq(x, s[j])
    {
      k := k - 1;
    }
    assert s == s[..k] + s[k..];
    r := s[..k] + [x] + s[k..];
    forall i | 0 <= i < k ensures leq(s[i], x) {
      assert leq(s[k - 1], x) && (i == k - 1 || leq(s[i], s[k - 1]));
    }
    InsertedSorted(s, k, x, leq);
  }

  lemma InsertedSorted<T(!new)>(s: seq<T>, k: nat, x: T, leq: (T, T) -> bool)
    requires k <= |s| && SortedBy(leq, s)
    requires forall i :: 0 <= i < k ==> leq(s[i], x)
    requires forall i :: k <= i < |s| ==> leq(x, s[i])
    ensures SortedBy(leq, s[..k] + [x] + s[k..])
  {
    var r := s[..k] + [x] + s[k..];
    forall i, j | 0 <= i < j < |r| ensures leq(r[i], r[j]) {
      var i', j' := if i <= k then i else i - 1, if j <= k then j else j - 1;
      assert r[i] == (if i == k then x else s[i']) && r[j] == (if j == k then x else s[j']);
    }
  }

  lemma SameElements<T>(a: seq<T>, b: seq<T>)
    requires multiset(a) == multiset(b)
    ensures |a| == |b| && forall x :: x in a <==> x in b
  {
    assert |multiset(a)| == |a| && |multiset(b)| == |b|;
    forall x ensures x in a <==> x in b {
      assert x in a <==> x in multiset(a);
      assert x in b <==> x in multiset(b);
    }
  }

  /** Reordering keeps elements pairwise different. */
  lemma PermutedDistinct<T>(a: seq<T>, b: seq<T>)
    requires (forall i, j :: 0 <= i < j < |a| ==> a[i] != a[j]) && multiset(a) == multiset(b)
    ensures forall i, j :: 0 <= i < j < |b| ==> b[i] != b[j]
  {
    forall i, j | 0 <= i < j < |b| ensures b[i] != b[j] {
      if b[i] == b[j] {
        var x := b[i];
        assert b == b[..i] + [x] + b[i + 1..j] + [x] + b[j + 1..];
        assert multiset(b)[x] >= 2;
        OccursOnce(a, x);
      }
    }
  }

  lemma {:induction false} OccursOnce<T>(s: seq<T>, x: T)
    requires forall i, j :: 0 <= i < j < |s| ==> s[i] != s[j]
    ensures multiset(s)[x] <= 1
  {
    if s != [] {
      OccursOnce(s[1..], x);
      assert s == [s[0]] + s[1..];
      if x == s[0] {
        assert x !in s[1..];
      }
    }
  }

  // ---------------------------------------------------------------- names

  ghost predicate Ascending(names: seq<string>) {
    forall i, j :: 0 <= i < j < |names| ==> Less(names[i], names[j])
  }

  predicate NameLeq(a: string, b: string) {
    !Less(b, a)
  }

  lemma NameLeqTransitive(a: string, b: string, c: string)
    requires NameLeq(a, b) && NameLeq(b, c)
    ensures NameLeq(a, c)
  {
    if Less(c, a) {
      LessTotal(a, b);
      if Less(a, b) {
        LessTransitive(c, a, b);
      }
    }
  }

  lemma NameLeqIsPreorder()
    ensures Preorder(NameLeq)
  {
    forall a: string, b: string ensures NameLeq(a, b) || NameLeq(b, a) {
      LessAsymmetric(a, b);
    }
    forall a: string, b: string, c: string | NameLeq(a, b) && NameLeq(b, c) ensures NameLeq(a, c) {
      NameLeqTransitive(a, b, c);
    }
  }

  lemma {:induction false} LeastExists(names: set<string>) returns (least: string)
    requires names != {}
    ensures least in names && forall x :: x in names ==> NameLeq(least, x)
    decreases names
  {
    var x :| x in names;
    LessIrreflexive(x);
    if names == {x} {
      return x;
    }
    var rest := LeastExists(names - {x});
    least := if NameLeq(x, rest) then x else rest;
    LessAsymmetric(x, rest);
    forall y | y in names ensures NameLeq(least, y) {
      LessIrreflexive(y);
      if y != x && least == x {
        NameLeqTransitive(x, rest, y);
      }
    }
  }

  /** The names of a set in ascending order. */
  ghost function SortedNames(names: set<string>): (s: seq<string>)
    ensures Ascending(s) && forall x :: x in s <==> x in names
    decreases names
  {
    if names == {} then []
    else
      var least := Least(names);
      var rest := SortedNames(names - {least});
      LeastIsBelow(names);
      [least] + rest
  }

  ghost function Least(names: set<string>): (least: string)
    requires names != {}
    ensures least in names && forall x :: x in names ==> NameLeq(least, x)
  {
    LeastIsThere(names);
    var least :| least in names && forall x :: x in names ==> NameLeq(least, x);
    least
  }

  lemma LeastIsThere(names: set<string>)
    requires names != {}
    ensures exists least :: least in names && forall x :: x in names ==> NameLeq(least, x)
  {
    var least := LeastExists(names);
  }

  lemma LeastIsBelow(names: set<string>)
    requires names != {}
    ensures forall x :: x in names && x != Least(names) ==> Less(Least(names), x)
  {
    forall x | x in names && x != Least(names) ensures Less(Least(names), x) {
      LessTotal(x, Least(names));
    }
  }

  /** Two ascending lists of the same names are the same list. */
  lemma {:induction false} AscendingUnique(a: seq<string>, b: seq<string>)
    requires Ascending(a) && Ascending(b)
    requires forall x :: x in a <==> x in b
    ensures a == b
  {
    SameEmptiness(a, b);
    if a != [] {
      HeadIsLeast(a, b[0]);
      HeadIsLeast(b, a[0]);
      LessAsymmetric(a[0], b[0]);
      TailHas(a, b);
      TailHas(b, a);
      AscendingUnique(a[1..], b[1..]);
      assert a == [a[0]] + a[1..] && b == [b[0]] + b[1..];
    }
  }

  lemma SameEmptiness(a: seq<string>, b: seq<string>)
    requires forall x :: x in a <==> x in b
    ensures a == [] <==> b == []
  {
    if a != [] {
      assert a[0] in a;
    }
    if b != [] {
      assert b[0] in b;
    }
  }

  lemma HeadIsLeast(a: seq<string>, x: string)
    requires Ascending(a) && x in a
    ensures x == a[0] || Less(a[0], x)
  {
  }

  lemma TailHas(a: seq<string>, b: seq<string>)
    requires a != [] && b != [] && Ascending(a) && a[0] == b[0]
    requires forall x :: x in a ==> x in b
    ensures forall x :: x in a[1..] ==> x in b[1..]
  {
    forall x | x in a[1..] ensures x in b[1..] {
      var i :| 1 <= i < |a| && a[i] == x;
      LessIrreflexive(a[0]);
      assert Less(a[0], a[i]) && x in b;
    }
  }

  /** A sorted list without duplicates is ascending. */
  lemma SortedIsAscending(s: seq<string>)
    requires SortedBy(NameLeq, s) && forall i, j :: 0 <= i < j < |s| ==> s[i] != s[j]
    ensures Ascending(s)
  {
    forall i, j | 0 <= i < j < |s| ensures Less(s[i], s[j]) {
      assert NameLeq(s[i], s[j]);
      LessTotal(s[i], s[j]);
    }
  }
}
