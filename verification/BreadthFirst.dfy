/** Breadth-first reconstruction of counterexample chains. The result is pinned
    down completely: among the shortest chains it is the one that comes first when
    callees are read in call order. */
module BreadthFirst {
  import opened Text
  import opened Reachability

  // ---------------------------------------------------------------- the specification

  function IndexOf<T(==)>(s: seq<T>, x: T): (i: nat)
    requires x in s
    ensures i < |s| && s[i] == x
    ensures forall k :: 0 <= k < i ==> s[k] != x
  {
    if s[0] == x then 0 else 1 + IndexOf(s[1..], x)
  }

  predicate Distinct<T(==)>(s: seq<T>) {
    forall i, j :: 0 <= i < j < |s| ==> s[i] != s[j]
  }

  /** Where `q` and `p` part, at position `at`, `q` takes the callee that is called first. */
  predicate Diverges(callees: Callees, q: seq<FQN>, p: seq<FQN>, at: nat) {
    && at + 1 < |q| && at + 1 < |p|
    && q[..at + 1] == p[..at + 1]
    && q[at + 1] in Bucket(callees, p[at]) && p[at + 1] in Bucket(callees, p[at])
    && IndexOf(Bucket(callees, p[at]), q[at + 1]) < IndexOf(Bucket(callees, p[at]), p[at + 1])
  }

  ghost predicate Before(callees: Callees, q: seq<FQN>, p: seq<FQN>) {
    exists at :: Diverges(callees, q, p, at)
  }

  /** `p` is shortest among all chains, and no other shortest chain comes before it. */
  ghost predicate FirstChain(callees: Callees, src: FQN, dst: FQN, p: seq<FQN>) {
    && Chain(callees, src, dst, p)
    && forall q :: Chain(callees, src, dst, q) ==> |p| <= |q| && (|q| == |p| ==> !Before(callees, q, p))
  }

  /** There is only one such chain. */
  lemma FirstChainUnique(callees: Callees, src: FQN, dst: FQN, p: seq<FQN>, q: seq<FQN>)
    requires FirstChain(callees, src, dst, p) && FirstChain(callees, src, dst, q)
    ensures p == q
  {
    if p != q {
      Comparable(callees, src, dst, p, q);
    }
  }

  lemma Comparable(callees: Callees, src: FQN, dst: FQN, p: seq<FQN>, q: seq<FQN>)
    requires Chain(callees, src, dst, p) && Chain(callees, src, dst, q) && |p| == |q| && p != q
    ensures Before(callees, p, q) || Before(callees, q, p)
  {
    var d := FirstDifference(p, q);
    assert Edge(callees, p[d], p[d + 1]) && Edge(callees, q[d], q[d + 1]);
    assert p[d] == p[..d + 1][d] == q[..d + 1][d] == q[d];
    assert Diverges(callees, p, q, d) || Diverges(callees, q, p, d);
  }

  lemma FirstDifference(p: seq<FQN>, q: seq<FQN>) returns (d: nat)
    requires |p| == |q| && p != q && p != [] && p[0] == q[0]
    ensures d + 1 < |p| && p[..d + 1] == q[..d + 1] && p[d + 1] != q[d + 1]
  {
    assert |p| == 1 ==> p == q;
    d := 0;
    while d + 2 < |p| && p[d + 1] == q[d + 1]
      invariant d + 1 < |p| && p[..d + 1] == q[..d + 1]
    {
      d := d + 1;
    }
    assert p == p[..d + 1] + p[d + 1..] && q == q[..d + 1] + q[d + 1..];
  }

  lemma {:induction false} ShortestExists(callees: Callees, src: FQN, dst: FQN, p0: seq<FQN>) returns (p: seq<FQN>)
    requires Chain(callees, src, dst, p0)
    ensures Shortest(callees, src, dst, p)
    decreases |p0|
  {
    if q :| Chain(callees, src, dst, q) && |q| < |p0| {
      p := ShortestExists(callees, src, dst, q);
    } else {
      p := p0;
    }
  }

  ghost predicate Shortest(callees: Callees, src: FQN, dst: FQN, p: seq<FQN>) {
    Chain(callees, src, dst, p) && forall q :: Chain(callees, src, dst, q) ==> |p| <= |q|
  }

  /** Whenever `dst` is reachable there is a first shortest chain. */
  lemma FirstChainExists(callees: Callees, src: FQN, dst: FQN) returns (p: seq<FQN>)
    requires Reaches(callees, src, dst)
    ensures FirstChain(callees, src, dst, p)
  {
    var p0 :| Chain(callees, src, dst, p0);
    p0 := ShortestExists(callees, src, dst, p0);
    p := FirstAmongShortest(callees, src, dst, p0);
  }

  /** Take the first callee that starts a shortest rest, and go on from there. */
  lemma {:induction false} FirstAmongShortest(callees: Callees, src: FQN, dst: FQN, p: seq<FQN>) returns (r: seq<FQN>)
    requires Shortest(callees, src, dst, p)
    ensures FirstChain(callees, src, dst, r)
    decreases |p|
  {
    if |p| == 1 {
      return p;
    }
    var i, rest := FirstGoodCallee(callees, src, dst, p);
    var c := Bucket(callees, src)[i];
    forall q | Chain(callees, c, dst, q) ensures |rest| <= |q| {
      Prepend(callees, src, c, dst, q);
    }
    var best := FirstAmongShortest(callees, c, dst, rest);
    r := [src] + best;
    Prepend(callees, src, c, dst, best);
    assert |best| == |rest|;
    forall q | Chain(callees, src, dst, q) ensures |r| <= |q| && (|q| == |r| ==> !Before(callees, q, r)) {
      if |q| == |r| {
        GreedyIsFirst(callees, src, dst, i, best, q);
      }
    }
  }

  lemma GreedyIsFirst(callees: Callees, src: FQN, dst: FQN, i: nat, best: seq<FQN>, q: seq<FQN>)
    requires i < |Bucket(callees, src)| && FirstChain(callees, Bucket(callees, src)[i], dst, best)
    requires forall k :: 0 <= k < i ==> !StartsRest(callees, Bucket(callees, src)[k], dst, |best|)
    requires Chain(callees, src, dst, q) && |q| == |best| + 1
    ensures !Before(callees, q, [src] + best)
  {
    Detach(callees, src, dst, q);
    forall at: nat | Diverges(callees, q, [src] + best, at) ensures false {
      if at == 0 {
        assert q[1] == Bucket(callees, src)[IndexOf(Bucket(callees, src), q[1])];
        assert StartsRest(callees, q[1], dst, |best|);
      } else {
        DivergesLater(callees, src, q, best, at);
      }
    }
  }

  lemma DivergesLater(callees: Callees, src: FQN, q: seq<FQN>, best: seq<FQN>, at: nat)
    requires at > 0 && Diverges(callees, q, [src] + best, at)
    ensures q[1] == best[0] && Diverges(callees, q[1..], best, at - 1)
  {
    var r := [src] + best;
    assert q[..at + 1][1] == r[..at + 1][1];
    assert q[1..][..at] == q[..at + 1][1..] && best[..at] == r[..at + 1][1..];
  }

  ghost predicate StartsRest(callees: Callees, c: FQN, dst: FQN, n: nat) {
    exists q :: Chain(callees, c, dst, q) && |q| == n
  }

  lemma FirstGoodCallee(callees: Callees, src: FQN, dst: FQN, p: seq<FQN>) returns (i: nat, rest: seq<FQN>)
    requires Chain(callees, src, dst, p) && |p| > 1
    ensures i < |Bucket(callees, src)| && IndexOf(Bucket(callees, src), Bucket(callees, src)[i]) == i
    ensures Chain(callees, Bucket(callees, src)[i], dst, rest) && |rest| == |p| - 1
    ensures forall k :: 0 <= k < i ==> !StartsRest(callees, Bucket(callees, src)[k], dst, |p| - 1)
  {
    var cs := Bucket(callees, src);
    Detach(callees, src, dst, p);
    var e := IndexOf(cs, p[1]);
    assert StartsRest(callees, cs[e], dst, |p| - 1);
    i := 0;
    while !StartsRest(callees, cs[i], dst, |p| - 1)
      invariant i <= e && forall k :: 0 <= k < i ==> !StartsRest(callees, cs[k], dst, |p| - 1)
      decreases e - i
    {
      i := i + 1;
    }
    rest :| Chain(callees, cs[i], dst, rest) && |rest| == |p| - 1;
  }

  lemma Prepend(callees: Callees, src: FQN, c: FQN, dst: FQN, q: seq<FQN>)
    requires Edge(callees, src, c) && Chain(callees, c, dst, q)
    ensures Chain(callees, src, dst, [src] + q)
  {
    var r := [src] + q;
    forall k | 0 <= k < |r| - 1 ensures Edge(callees, r[k], r[k + 1]) {
      if k > 0 {
        assert r[k] == q[k - 1] && r[k + 1] == q[k];
      }
    }
  }

  lemma Detach(callees: Callees, src: FQN, dst: FQN, q: seq<FQN>)
    requires Chain(callees, src, dst, q) && |q| > 1
    ensures Edge(callees, src, q[1]) && Chain(callees, q[1], dst, q[1..])
  {
    assert Edge(callees, q[0], q[1]);
  }

  /** A shortest chain never visits a function twice. */
  lemma FirstChainSimple(callees: Callees, src: FQN, dst: FQN, p: seq<FQN>)
    requires FirstChain(callees, src, dst, p)
    ensures Distinct(p)
  {
    forall i, j | 0 <= i < j < |p| ensures p[i] != p[j] {
      if p[i] == p[j] {
        Shortcut(callees, src, dst, p, i, j);
      }
    }
  }

  /** Cutting a loop out of a chain leaves a chain. */
  lemma Shortcut(callees: Callees, src: FQN, dst: FQN, p: seq<FQN>, i: nat, j: nat)
    requires Chain(callees, src, dst, p) && i < j < |p| && p[i] == p[j]
    ensures Chain(callees, src, dst, p[..i] + p[j..])
  {
    var q := p[..i] + p[j..];
    forall k | 0 <= k < |q| - 1 ensures Edge(callees, q[k], q[k + 1]) {
      if k + 1 < i {
        assert Edge(callees, p[k], p[k + 1]);
      } else if k + 1 == i {
        assert Edge(callees, p[k], p[k + 1]) && q[k + 1] == p[i];
      } else {
        assert q[k] == p[k + j - i] && q[k + 1] == p[k + j - i + 1];
      }
    }
  }

  // ---------------------------------------------------------------- the search tree

  /** The edge scanned at position `index` of the callees of the `at`-th dequeued name. */
  datatype Scan = Scan(at: nat, index: nat)

  /** Lexicographic order on (position of caller in the queue, index of callee). */
  predicate Earlier(a: nat, e: nat, b: nat, f: nat) {
    a < b || (a == b && e < f)
  }

  /** `order[j]` was discovered through edge `via[j]`, and every edge scanned before
      that one leads to a name discovered before `order[j]`. */
  ghost predicate Discovered(callees: Callees, order: seq<FQN>, via: seq<Scan>, j: nat)
    requires j < |order| == |via|
  {
    var Scan(b, f) := via[j];
    && b < j && f < |Bucket(callees, order[b])| && Bucket(callees, order[b])[f] == order[j]
    && forall a: nat, e: nat :: a < |order| && Earlier(a, e, b, f) && e < |Bucket(callees, order[a])|
         ==> Bucket(callees, order[a])[e] in order[..j]
  }

  /** The state of the search: names in discovery order with the edge that found each. */
  ghost predicate Tree(callees: Callees, src: FQN, order: seq<FQN>, via: seq<Scan>) {
    && 0 < |order| == |via| && order[0] == src && via[0] == Scan(0, 0)
    && Distinct(order)
    && forall j :: 1 <= j < |order| ==> Discovered(callees, order, via, j)
  }

  /** Every edge before (h, k) leads to a discovered name. */
  ghost predicate Scanned(callees: Callees, order: seq<FQN>, h: nat, k: nat) {
    forall a: nat, e: nat :: a < |order| && Earlier(a, e, h, k) && e < |Bucket(callees, order[a])|
      ==> Bucket(callees, order[a])[e] in order
  }

  ghost predicate WellFounded(via: seq<Scan>) {
    forall j :: 1 <= j < |via| ==> via[j].at < j
  }

  /** Positions from the root of the search tree down to `j`. */
  ghost function Ancestry(via: seq<Scan>, j: nat): (line: seq<nat>)
    requires j < |via| && WellFounded(via)
    ensures |line| > 0 && line[0] == 0 && line[|line| - 1] == j
    ensures forall i :: 0 <= i < |line| ==> line[i] <= j
    ensures forall i :: 0 < i < |line| ==> line[i] > 0 && line[i - 1] == via[line[i]].at
  {
    if j == 0 then [0] else Ancestry(via, via[j].at) + [j]
  }

  ghost function TreePath(order: seq<FQN>, via: seq<Scan>, j: nat): (path: seq<FQN>)
    requires j < |order| == |via| && WellFounded(via)
  {
    var line := Ancestry(via, j);
    seq(|line|, i requires 0 <= i < |line| => order[line[i]])
  }

  /** Edges scanned before the one that discovered `order[j]` lead to earlier names. */
  lemma FoundBefore(callees: Callees, src: FQN, order: seq<FQN>, via: seq<Scan>, j: nat, a: nat, e: nat)
    requires Tree(callees, src, order, via) && 1 <= j < |order| && a < |order|
    requires e < |Bucket(callees, order[a])| && Earlier(a, e, via[j].at, via[j].index)
    ensures Bucket(callees, order[a])[e] in order[..j]
  {
    assert Discovered(callees, order, via, j);
  }

  /** The edge that discovered a name is not later than any edge to it or to a later name. */
  lemma DiscoveredByFirst(callees: Callees, src: FQN, order: seq<FQN>, via: seq<Scan>, j: nat, a: nat, e: nat)
    requires Tree(callees, src, order, via) && 1 <= j < |order| && a < |order|
    requires e < |Bucket(callees, order[a])| && Bucket(callees, order[a])[e] !in order[..j]
    ensures !Earlier(a, e, via[j].at, via[j].index)
  {
    if Earlier(a, e, via[j].at, via[j].index) {
      FoundBefore(callees, src, order, via, j, a, e);
    }
  }

  /** Discovery follows the queue: later names were found through edges no earlier. */
  lemma ViaMonotone(callees: Callees, src: FQN, order: seq<FQN>, via: seq<Scan>, i: nat, j: nat)
    requires Tree(callees, src, order, via) && 1 <= i <= j < |order|
    ensures via[i].at <= via[j].at
  {
    assert Discovered(callees, order, via, i) && Discovered(callees, order, via, j);
    if i < j {
      DiscoveredByFirst(callees, src, order, via, i, via[j].at, via[j].index);
    }
  }

  lemma {:induction false} LevelMonotone(callees: Callees, src: FQN, order: seq<FQN>, via: seq<Scan>, i: nat, j: nat)
    requires Tree(callees, src, order, via) && WellFounded(via) && i <= j < |order|
    ensures |Ancestry(via, i)| <= |Ancestry(via, j)|
    decreases j
  {
    if i > 0 {
      ViaMonotone(callees, src, order, via, i, j);
      LevelMonotone(callees, src, order, via, via[i].at, via[j].at);
    }
  }

  lemma TreePathIsChain(callees: Callees, src: FQN, order: seq<FQN>, via: seq<Scan>, j: nat)
    requires Tree(callees, src, order, via) && WellFounded(via) && j < |order|
    ensures Chain(callees, src, order[j], TreePath(order, via, j))
  {
    var line, p := Ancestry(via, j), TreePath(order, via, j);
    forall i | 0 <= i < |p| - 1 ensures Edge(callees, p[i], p[i + 1]) {
      assert Discovered(callees, order, via, line[i + 1]);
    }
  }

  /** Follow a chain `q` up to index `i`: either its name there was discovered no
      deeper than `i`, or `i` is already as deep as the newest name. */
  lemma {:induction false} NoShortcut(callees: Callees, src: FQN, order: seq<FQN>, via: seq<Scan>, q: seq<FQN>, i: nat)
    requires Tree(callees, src, order, via) && WellFounded(via) && |order| > 1
    requires q != [] && Chain(callees, src, q[|q| - 1], q) && i < |q|
    ensures
      var last := |order| - 1;
      || i + 1 >= |Ancestry(via, last)|
      || (q[i] in order[..last] && |Ancestry(via, IndexOf(order, q[i]))| <= i + 1)
  {
    var last := |order| - 1;
    if i == 0 {
      assert order[..last][0] == src && IndexOf(order, q[0]) == 0;
    } else {
      NoShortcut(callees, src, order, via, q, i - 1);
      assert Edge(callees, q[i - 1], q[i]);
      if i + 1 < |Ancestry(via, last)| {
        OneDeeper(callees, src, order, via, q[i - 1], q[i]);
      }
    }
  }

  /** A callee of a discovered name is at most one level deeper, unless its edge was
      not scanned yet; then the newest name is at most that deep too. */
  lemma OneDeeper(callees: Callees, src: FQN, order: seq<FQN>, via: seq<Scan>, w: FQN, x: FQN)
    requires Tree(callees, src, order, via) && WellFounded(via) && |order| > 1
    requires w in order && Edge(callees, w, x)
    ensures
      var last, above := |order| - 1, |Ancestry(via, IndexOf(order, w))|;
      || above + 1 >= |Ancestry(via, last)|
      || (x in order[..last] && |Ancestry(via, IndexOf(order, x))| <= above + 1)
  {
    var last := |order| - 1;
    var a := IndexOf(order, w);
    var e := IndexOf(Bucket(callees, w), x);
    if Earlier(a, e, via[last].at, via[last].index) {
      FoundBefore(callees, src, order, via, last, a, e);
      var j := IndexOf(order, x);
      if j > 0 {
        assert order[..j + 1][j] == x;
        DiscoveredByFirst(callees, src, order, via, j, a, e);
        LevelMonotone(callees, src, order, via, via[j].at, a);
      }
    } else {
      LevelMonotone(callees, src, order, via, via[last].at, a);
    }
  }

  /** A chain that branches off before the tree path does so to an earlier discovery. */
  lemma BranchesEarlier(callees: Callees, src: FQN, order: seq<FQN>, via: seq<Scan>, j: nat, q: seq<FQN>, at: nat)
    requires Tree(callees, src, order, via) && WellFounded(via) && j < |order|
    requires Diverges(callees, q, TreePath(order, via, j), at)
    ensures at + 1 < |Ancestry(via, j)| && q[at + 1] in order[..Ancestry(via, j)[at + 1]]
  {
    var line := Ancestry(via, j);
    assert TreePath(order, via, j)[at] == order[line[at]] && TreePath(order, via, j)[at + 1] == order[line[at + 1]];
    SiblingBefore(callees, src, order, via, line[at + 1], q[at + 1]);
  }

  /** From then on it stays among earlier discoveries. */
  lemma {:induction false} StaysEarlier(callees: Callees, src: FQN, order: seq<FQN>, via: seq<Scan>, j: nat,
                                        q: seq<FQN>, k: nat, m: nat)
    requires Tree(callees, src, order, via) && WellFounded(via) && j < |order|
    requires q != [] && Chain(callees, src, q[|q| - 1], q) && |q| == |Ancestry(via, j)|
    requires 0 < k <= m < |q| && q[k] in order[..Ancestry(via, j)[k]]
    ensures q[m] in order[..Ancestry(via, j)[m]]
    decreases m
  {
    if k < m {
      var line := Ancestry(via, j);
      StaysEarlier(callees, src, order, via, j, q, k, m - 1);
      assert line[m - 1] == via[line[m]].at && Edge(callees, q[m - 1], q[m]);
      CousinBefore(callees, src, order, via, line[m], q[m - 1], q[m]);
    }
  }

  lemma SiblingBefore(callees: Callees, src: FQN, order: seq<FQN>, via: seq<Scan>, j: nat, x: FQN)
    requires Tree(callees, src, order, via) && WellFounded(via) && 1 <= j < |order|
    requires
      var cs := Bucket(callees, order[via[j].at]);
      x in cs && order[j] in cs && IndexOf(cs, x) < IndexOf(cs, order[j])
    ensures x in order[..j]
  {
    assert Discovered(callees, order, via, j);
    var cs := Bucket(callees, order[via[j].at]);
    FoundBefore(callees, src, order, via, j, via[j].at, IndexOf(cs, x));
  }

  lemma CousinBefore(callees: Callees, src: FQN, order: seq<FQN>, via: seq<Scan>, j: nat, w: FQN, x: FQN)
    requires Tree(callees, src, order, via) && WellFounded(via) && 1 <= j < |order|
    requires w in order[..via[j].at] && Edge(callees, w, x)
    ensures x in order[..j]
  {
    var c := IndexOf(order[..via[j].at], w);
    FoundBefore(callees, src, order, via, j, c, IndexOf(Bucket(callees, w), x));
  }

  /** The tree path to the newest name is the first shortest chain. */
  lemma NewestIsFirstChain(callees: Callees, src: FQN, order: seq<FQN>, via: seq<Scan>)
    requires Tree(callees, src, order, via) && WellFounded(via) && |order| > 1
    ensures var j := |order| - 1; FirstChain(callees, src, order[j], TreePath(order, via, j))
  {
    var j := |order| - 1;
    var p, dst := TreePath(order, via, j), order[j];
    TreePathIsChain(callees, src, order, via, j);
    forall q | Chain(callees, src, dst, q)
      ensures |p| <= |q| && (|q| == |p| ==> !Before(callees, q, p))
    {
      NoShortcut(callees, src, order, via, q, |q| - 1);
      if |q| == |p| {
        NothingBefore(callees, src, order, via, q);
      }
    }
  }

  lemma NothingBefore(callees: Callees, src: FQN, order: seq<FQN>, via: seq<Scan>, q: seq<FQN>)
    requires Tree(callees, src, order, via) && WellFounded(via) && |order| > 1
    requires Chain(callees, src, order[|order| - 1], q) && |q| == |Ancestry(via, |order| - 1)|
    ensures !Before(callees, q, TreePath(order, via, |order| - 1))
  {
    var j := |order| - 1;
    forall at: nat | Diverges(callees, q, TreePath(order, via, j), at) ensures false {
      BranchesEarlier(callees, src, order, via, j, q, at);
      StaysEarlier(callees, src, order, via, j, q, at + 1, |q| - 1);
    }
  }

  // ---------------------------------------------------------------- the methods

  function Reversed<T>(s: seq<T>): (r: seq<T>)
    ensures |r| == |s|
  {
    seq(|s|, i requires 0 <= i < |s| => s[|s| - 1 - i])
  }

  /** Climbs the parents map from the newest name and reverses the result in place. */
  method ReconstructPath(parents: map<FQN, FQN>, src: FQN, dst: FQN, ghost callees: Callees,
                         ghost order: seq<FQN>, ghost via: seq<Scan>)
    returns (path: seq<FQN>)
    requires Tree(callees, src, order, via) && Parents(parents, order, via) && "" !in order
    requires order[|order| - 1] == dst
    ensures path == TreePath(order, via, |order| - 1)
  {
    ghost var j: nat := |order| - 1;
    var rev: seq<FQN> := [];
    var n := dst;
    ghost var at: nat := j;
    while n != ""
      invariant at < |order| && n == order[at]
      invariant TreePath(order, via, j) == TreePath(order, via, at) + Reversed(rev)
      decreases at
    {
      ClimbStep(order, via, at, rev);
      rev := rev + [n];
      if n == src {
        assert at == 0;
        break;
      }
      n := parents[n];
      at := via[at].at;
    }
    path := ReverseInPlace(rev);
  }

  lemma ClimbStep(order: seq<FQN>, via: seq<Scan>, at: nat, rev: seq<FQN>)
    requires at < |order| == |via| && WellFounded(via)
    ensures TreePath(order, via, at) + Reversed(rev)
         == (if at == 0 then [] else TreePath(order, via, via[at].at)) + Reversed(rev + [order[at]])
  {
    var above := if at == 0 then [] else TreePath(order, via, via[at].at);
    TreePathStep(order, via, at);
    ReversedAppend(rev, order[at]);
    ConcatAssociative(above, [order[at]], Reversed(rev));
  }

  lemma TreePathStep(order: seq<FQN>, via: seq<Scan>, j: nat)
    requires j < |order| == |via| && WellFounded(via)
    ensures TreePath(order, via, j) == (if j == 0 then [] else TreePath(order, via, via[j].at)) + [order[j]]
  {
  }

  lemma ReversedAppend<T>(s: seq<T>, x: T)
    ensures Reversed(s + [x]) == [x] + Reversed(s)
  {
  }

  /** The swapping loop at the end of the climb. */
  method ReverseInPlace<T>(s: seq<T>) returns (rev: seq<T>)
    ensures rev == Reversed(s)
  {
    rev := s;
    var i, k := 0, |rev| - 1;
    while i < k
      invariant 0 <= i <= k + 1 && i + k == |s| - 1 && |rev| == |s|
      invariant forall x :: 0 <= x < i || k < x < |s| ==> rev[x] == s[|s| - 1 - x]
      invariant forall x :: i <= x <= k ==> rev[x] == s[x]
    {
      rev := rev[i := rev[k]][k := rev[i]];
      i, k := i + 1, k - 1;
    }
  }

  /** The inner loop: records and enqueues the callees of `n` not seen before, and
      stops as soon as it discovers `dst`. */
  method ScanCallees(callees: Callees, src: FQN, dst: FQN, n: FQN, parents0: map<FQN, FQN>, queue0: seq<FQN>,
                     ghost order0: seq<FQN>, ghost via0: seq<Scan>, ghost h: nat)
    returns (parents: map<FQN, FQN>, queue: seq<FQN>, found: bool, ghost order: seq<FQN>, ghost via: seq<Scan>)
    requires "" !in Names(callees)
    requires Search(callees, src, dst, parents0, order0, via0) && Scanned(callees, order0, h, 0)
    requires h < |order0| && n == order0[h] && queue0 == order0[h + 1..]
    ensures found ==>
      && Tree(callees, src, order, via) && Parents(parents, order, via) && "" !in order
      && |order| > 1 && order[|order| - 1] == dst
    ensures !found ==>
      && Search(callees, src, dst, parents, order, via) && Scanned(callees, order, h + 1, 0)
      && h < |order| && queue == order[h + 1..]
      && parents0.Keys <= parents.Keys && (parents.Keys == parents0.Keys ==> queue == queue0)
  {
    parents, queue, order, via := parents0, queue0, order0, via0;
    var cs := Bucket(callees, n);
    for k := 0 to |cs|
      invariant h < |order| && n == order[h] && queue == order[h + 1..]
      invariant Search(callees, src, dst, parents, order, via)
      invariant Scanned(callees, order, h, k)
      invariant parents0.Keys <= parents.Keys && (parents.Keys == parents0.Keys ==> queue == queue0)
    {
      var c := cs[k];
      if c in parents {
        KnownScanned(callees, order, h, k);
        continue;
      }
      Extend(callees, src, dst, parents, order, via, h, k);
      parents := parents[c := n];
      order, via := order + [c], via + [Scan(h, k)];
      if c == dst {
        found := true;
        return;
      }
      queue := queue + [c];
    }
    NextScanned(callees, order, h);
    found := false;
  }

  /** BFS with a parents map. `[]` stands for nil. */
  method ShortestPath(src: FQN, dst: FQN, callees: Callees) returns (path: seq<FQN>)
    requires "" !in Names(callees)
    ensures path == [] <==> src == "" || dst == "" || !Reaches(callees, src, dst)
    ensures path != [] ==> FirstChain(callees, src, dst, path)
  {
    if src == "" || dst == "" {
      return [];
    }
    if src == dst {
      SelfChain(callees, src);
      return [src];
    }
    var parents := map[src := ""];
    var queue := [src];
    ghost var order: seq<FQN>, via: seq<Scan> := [src], [Scan(0, 0)];
    ghost var h: nat := 0;
    Start(callees, src, dst);
    while |queue| > 0
      invariant h <= |order| && queue == order[h..]
      invariant Search(callees, src, dst, parents, order, via)
      invariant Scanned(callees, order, h, 0)
      decreases Names(callees) + {src} - parents.Keys, |queue|
    {
      var n := queue[0];
      queue := queue[1..];
      var found;
      parents, queue, found, order, via := ScanCallees(callees, src, dst, n, parents, queue, order, via, h);
      if found {
        path := ReconstructPath(parents, src, dst, callees, order, via);
        NewestIsFirstChain(callees, src, order, via);
        return;
      }
      h := h + 1;
    }
    NotFound(callees, src, dst, parents, order, via);
    path := [];
  }

  /** What the search keeps: the tree, and a parents map that agrees with it. */
  ghost predicate Search(callees: Callees, src: FQN, dst: FQN, parents: map<FQN, FQN>,
                         order: seq<FQN>, via: seq<Scan>)
  {
    && Tree(callees, src, order, via)
    && Parents(parents, order, via)
    && dst !in order
    && "" !in order
    && parents.Keys <= Names(callees) + {src}
  }

  ghost predicate Parents(parents: map<FQN, FQN>, order: seq<FQN>, via: seq<Scan>) {
    && |order| == |via| && WellFounded(via)
    && (forall x :: x in parents <==> x in order)
    && forall i :: 1 <= i < |order| ==> parents[order[i]] == order[via[i].at]
  }

  lemma SelfChain(callees: Callees, src: FQN)
    ensures FirstChain(callees, src, src, [src]) && Reaches(callees, src, src)
  {
    assert Chain(callees, src, src, [src]);
  }

  lemma Start(callees: Callees, src: FQN, dst: FQN)
    requires src != "" && src != dst
    ensures Search(callees, src, dst, map[src := ""], [src], [Scan(0, 0)]) && Scanned(callees, [src], 0, 0)
  {
  }

  /** Discovering a new name through the next unscanned edge keeps the search state,
      except that the name may be the destination. */
  lemma Extend(callees: Callees, src: FQN, dst: FQN, parents: map<FQN, FQN>,
               order: seq<FQN>, via: seq<Scan>, h: nat, k: nat)
    requires Search(callees, src, dst, parents, order, via) && Scanned(callees, order, h, k)
    requires h < |order| && k < |Bucket(callees, order[h])| && Bucket(callees, order[h])[k] !in parents
    requires "" !in Names(callees)
    ensures
      var c := Bucket(callees, order[h])[k];
      var withParent, grown, scans := parents[c := order[h]], order + [c], via + [Scan(h, k)];
      && Tree(callees, src, grown, scans) && Parents(withParent, grown, scans)
      && "" !in grown && (c != dst ==> Search(callees, src, dst, withParent, grown, scans))
      && Scanned(callees, grown, h, k + 1)
  {
    var c := Bucket(callees, order[h])[k];
    assert order[h] in callees && c in callees[order[h]];
    ExtendTree(callees, src, order, via, h, k);
    ExtendParents(parents, order, via, c, h, k);
    ExtendScanned(callees, order, c, h, k);
  }

  lemma ExtendTree(callees: Callees, src: FQN, order: seq<FQN>, via: seq<Scan>, h: nat, k: nat)
    requires Tree(callees, src, order, via) && Scanned(callees, order, h, k)
    requires h < |order| && k < |Bucket(callees, order[h])| && Bucket(callees, order[h])[k] !in order
    ensures Tree(callees, src, order + [Bucket(callees, order[h])[k]], via + [Scan(h, k)])
  {
    var c := Bucket(callees, order[h])[k];
    var order', via' := order + [c], via + [Scan(h, k)];
    forall j | 1 <= j < |order'| ensures Discovered(callees, order', via', j) {
      if j < |order| {
        assert Discovered(callees, order, via, j);
        assert order'[..j] == order[..j];
      } else {
        assert order'[..j] == order;
      }
    }
  }

  lemma ExtendParents(parents: map<FQN, FQN>, order: seq<FQN>, via: seq<Scan>, c: FQN, h: nat, k: nat)
    requires Parents(parents, order, via) && c !in order && h < |order|
    ensures Parents(parents[c := order[h]], order + [c], via + [Scan(h, k)])
  {
  }

  lemma ExtendScanned(callees: Callees, order: seq<FQN>, c: FQN, h: nat, k: nat)
    requires Scanned(callees, order, h, k) && h < |order|
    requires k < |Bucket(callees, order[h])| && Bucket(callees, order[h])[k] == c
    ensures Scanned(callees, order + [c], h, k + 1)
  {
    var order' := order + [c];
    forall a: nat, e: nat | a < |order'| && Earlier(a, e, h, k + 1) && e < |Bucket(callees, order'[a])|
      ensures Bucket(callees, order'[a])[e] in order'
    {
      if Earlier(a, e, h, k) {
        assert Bucket(callees, order[a])[e] in order;
      }
    }
  }

  lemma KnownScanned(callees: Callees, order: seq<FQN>, h: nat, k: nat)
    requires Scanned(callees, order, h, k) && h < |order|
    requires k < |Bucket(callees, order[h])| && Bucket(callees, order[h])[k] in order
    ensures Scanned(callees, order, h, k + 1)
  {
    forall a: nat, e: nat | a < |order| && Earlier(a, e, h, k + 1) && e < |Bucket(callees, order[a])|
      ensures Bucket(callees, order[a])[e] in order
    {
      assert Earlier(a, e, h, k) || (a == h && e == k);
    }
  }

  lemma NextScanned(callees: Callees, order: seq<FQN>, h: nat)
    requires h < |order| && Scanned(callees, order, h, |Bucket(callees, order[h])|)
    ensures Scanned(callees, order, h + 1, 0)
  {
    forall a: nat, e: nat | a < |order| && Earlier(a, e, h + 1, 0) && e < |Bucket(callees, order[a])|
      ensures Bucket(callees, order[a])[e] in order
    {
      assert Earlier(a, e, h, |Bucket(callees, order[h])|);
    }
  }

  /** An exhausted queue means the discovered names are closed under callees. */
  lemma NotFound(callees: Callees, src: FQN, dst: FQN, parents: map<FQN, FQN>, order: seq<FQN>, via: seq<Scan>)
    requires Search(callees, src, dst, parents, order, via)
    requires Scanned(callees, order, |order|, 0)
    ensures !Reaches(callees, src, dst)
  {
    var found := set x | x in order;
    forall a, b | a in found && Edge(callees, a, b) ensures b in found {
      var i, e := IndexOf(order, a), IndexOf(Bucket(callees, a), b);
      assert Earlier(i, e, |order|, 0);
    }
    forall p | Chain(callees, src, dst, p) ensures false {
      ClosedHolds(callees, found, src, dst, p);
    }
  }
}
