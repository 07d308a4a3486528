/** Reachability over the callee map, and the closure computed with an explicit stack. */
module Reachability {
  import opened Text

  type Callees = map<FQN, seq<FQN>>

  predicate Edge(callees: Callees, a: FQN, b: FQN) {
    b in Bucket(callees, a)
  }

  /** `chain` is a call sequence from `src` to `dst`, both included. */
  predicate Chain(callees: Callees, src: FQN, dst: FQN, chain: seq<FQN>) {
    && |chain| > 0 && chain[0] == src && chain[|chain| - 1] == dst
    && forall i :: 0 <= i < |chain| - 1 ==> Edge(callees, chain[i], chain[i + 1])
  }

  /** Zero or more callee edges lead from `src` to `dst`. */
  ghost predicate Reaches(callees: Callees, src: FQN, dst: FQN) {
    exists chain :: Chain(callees, src, dst, chain)
  }

  lemma ReachesSelf(callees: Callees, a: FQN)
    ensures Reaches(callees, a, a)
  {
    assert Chain(callees, a, a, [a]);
  }

  lemma ReachesStep(callees: Callees, a: FQN, b: FQN, c: FQN)
    requires Reaches(callees, a, b) && Edge(callees, b, c)
    ensures Reaches(callees, a, c)
  {
    var p :| Chain(callees, a, b, p);
    assert Chain(callees, a, c, p + [c]);
  }

  lemma ReachesTransitive(callees: Callees, a: FQN, b: FQN, c: FQN)
    requires Reaches(callees, a, b) && Reaches(callees, b, c)
    ensures Reaches(callees, a, c)
  {
    var p :| Chain(callees, a, b, p);
    var q :| Chain(callees, b, c, q);
    var r := p + q[1..];
    forall i | 0 <= i < |r| - 1 ensures Edge(callees, r[i], r[i + 1]) {
      if i >= |p| - 1 {
        assert r[i] == q[i - |p| + 1] && r[i + 1] == q[i - |p| + 2];
      }
    }
    assert r[|r| - 1] == if |q| == 1 then p[|p| - 1] else q[|q| - 1];
    assert Chain(callees, a, c, r);
  }

  /** A set closed under callee edges holds everything its members reach. */
  lemma {:induction false} ClosedHolds(callees: Callees, members: set<FQN>, src: FQN, dst: FQN, chain: seq<FQN>)
    requires src in members
    requires forall a, b :: a in members && Edge(callees, a, b) ==> b in members
    requires Chain(callees, src, dst, chain)
    ensures dst in members
    decreases |chain|
  {
    if |chain| > 1 {
      assert Edge(callees, chain[0], chain[1]);
      ClosedHolds(callees, members, chain[1], dst, chain[1..]);
    }
  }

  /** Every name that occurs as a callee. */
  ghost function Names(callees: Callees): set<FQN> {
    set f, c | f in callees && c in callees[f] :: c
  }

  ghost function Closure(callees: Callees, start: FQN): set<FQN> {
    set x | x in Names(callees) + {start} && Reaches(callees, start, x)
  }

  lemma ClosureIsReachability(callees: Callees, start: FQN, x: FQN)
    ensures x in Closure(callees, start) <==> Reaches(callees, start, x)
  {
    if Reaches(callees, start, x) && x != start {
      var p :| Chain(callees, start, x, p);
      assert Edge(callees, p[|p| - 2], p[|p| - 1]);
    }
  }

  /** The stack-driven closure: exactly the names reachable from `start`, on any
      graph, cyclic or not. */
  method TransitiveCallees(start: FQN, callees: Callees) returns (visited: set<FQN>)
    ensures visited == Closure(callees, start)
  {
    visited := {start};
    var stack := [start];
    ghost var done: set<FQN> := {};
    ReachesSelf(callees, start);
    while |stack| > 0
      invariant start in visited && visited <= Names(callees) + {start}
      invariant forall x :: x in visited ==> Reaches(callees, start, x)
      invariant forall x :: x in stack ==> x in visited
      invariant forall x :: x in visited ==> x in done || x in stack
      invariant CalleesSeen(callees, done, visited)
      decreases Names(callees) + {start} - visited, |stack|
    {
      var n := stack[|stack| - 1];
      stack := stack[..|stack| - 1];
      ghost var before, rest := visited, stack;
      var cs := Bucket(callees, n);
      for i := 0 to |cs|
        invariant before <= visited <= Names(callees) + {start}
        invariant forall x :: x in visited ==> Reaches(callees, start, x)
        invariant forall x :: x in stack ==> x in visited
        invariant forall x :: x in visited ==> x in done || x == n || x in stack
        invariant forall k :: 0 <= k < i ==> cs[k] in visited
        invariant visited == before ==> stack == rest
      {
        var c := cs[i];
        if c !in visited {
          assert Edge(callees, n, c);
          ReachesStep(callees, start, n, c);
          visited := visited + {c};
          stack := stack + [c];
        }
      }
      done := done + {n};
    }
    ClosedIsClosure(callees, start, visited);
  }

  /** The callees of every scanned name have been visited. */
  ghost predicate CalleesSeen(callees: Callees, done: set<FQN>, visited: set<FQN>) {
    forall a, b :: a in done && Edge(callees, a, b) ==> b in visited
  }

  lemma ClosedIsClosure(callees: Callees, start: FQN, visited: set<FQN>)
    requires start in visited && forall x :: x in visited ==> Reaches(callees, start, x)
    requires forall a, b :: a in visited && Edge(callees, a, b) ==> b in visited
    ensures visited == Closure(callees, start)
  {
    forall x ensures x in visited <==> x in Closure(callees, start) {
      ClosureIsReachability(callees, start, x);
      if Reaches(callees, start, x) {
        var p :| Chain(callees, start, x, p);
        ClosedHolds(callees, visited, start, x, p);
      }
    }
  }

  /** A callee's closure lies inside its caller's. */
  lemma ClosureShrinks(callees: Callees, f: FQN, g: FQN)
    requires Reaches(callees, f, g)
    ensures Closure(callees, g) <= Closure(callees, f)
  {
    forall x | x in Closure(callees, g) ensures x in Closure(callees, f) {
      ClosureIsReachability(callees, g, x);
      ReachesTransitive(callees, f, g, x);
      ClosureIsReachability(callees, f, x);
    }
  }

  lemma SubsetSize<T>(small: set<T>, large: set<T>)
    requires small <= large
    ensures |small| <= |large|
    ensures |small| == |large| <==> small == large
  {
    assert large == small + (large - small);
    assert |large| == |small| + |large - small|;
  }

  /** Comparing closure sizes is an exact strict-subset test: for a function `g` in
      the closure of `f`, the closure of `g` is smaller exactly when `g` does not
      call back to `f`. */
  lemma SizeTest(callees: Callees, f: FQN, g: FQN)
    requires g in Closure(callees, f)
    ensures |Closure(callees, g)| < |Closure(callees, f)| <==> !Reaches(callees, g, f)
    ensures Reaches(callees, g, f) <==> Closure(callees, g) == Closure(callees, f)
  {
    ClosureIsReachability(callees, f, g);
    ClosureShrinks(callees, f, g);
    SubsetSize(Closure(callees, g), Closure(callees, f));
    ReachesSelf(callees, f);
    ClosureIsReachability(callees, f, f);
    ClosureIsReachability(callees, g, f);
    if Reaches(callees, g, f) {
      ClosureShrinks(callees, g, f);
    }
  }
}
