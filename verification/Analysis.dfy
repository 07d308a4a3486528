/** The analysis of one policy: violators, their minimal ones, suppression, order. */
module Analysis {
  import opened Text
  import opened CallGraph
  import opened Policies
  import opened Matching
  import opened Autofix
  import opened Reachability
  import opened BreadthFirst
  import opened Sorting
  import opened Solver

  // ---------------------------------------------------------------- what a finding is

  ghost function HopNames(hops: seq<ChainHop>): seq<FQN> {
    seq(|hops|, i requires 0 <= i < |hops| => hops[i].fqn)
  }

  function Next(path: seq<FQN>, i: nat): Option<FQN> {
    if i + 1 < |path| then Some(path[i + 1]) else None
  }

  /** The hop sits at the first call of the next function; the last hop sits nowhere. */
  ghost predicate HopFits(d: Snapshot, hop: ChainHop, next: Option<FQN>) {
    if next.Some? then
      var site := FirstSite(Bucket(d.calls, hop.fqn), next.value);
      site.Some? && hop.path == site.value.file.path && hop.line == site.value.line
    else hop.path == "" && hop.line == 0
  }

  ghost predicate Annotated(d: Snapshot, hops: seq<ChainHop>) {
    forall i :: 0 <= i < |hops| ==> HopFits(d, hops[i], Next(HopNames(hops), i))
  }

  /** A genuine counterexample: the first shortest call chain, with real call sites. */
  ghost predicate Counterexample(d: Snapshot, src: FQN, dst: FQN, hops: seq<ChainHop>) {
    FirstChain(CalleeMap(d), src, dst, HopNames(hops)) && Annotated(d, hops)
  }

  lemma CounterexampleUnique(d: Snapshot, src: FQN, dst: FQN, a: seq<ChainHop>, b: seq<ChainHop>)
    requires Counterexample(d, src, dst, a) && Counterexample(d, src, dst, b)
    ensures a == b
  {
    FirstChainUnique(CalleeMap(d), src, dst, HopNames(a), HopNames(b));
    assert |a| == |HopNames(a)| == |HopNames(b)| == |b|;
    forall i | 0 <= i < |a| ensures a[i] == b[i] {
      assert a[i].fqn == HopNames(a)[i] == HopNames(b)[i] == b[i].fqn;
      assert HopFits(d, a[i], Next(HopNames(a), i)) && HopFits(d, b[i], Next(HopNames(b), i));
    }
  }

  /** The finding for function `f`: the first source and sink in evidence, and genuine
      chains to the functions that hold them. */
  ghost predicate IsFinding(d: Snapshot, p: Policy, f: FQN, finding: Finding) {
    var verdict := Verdict(d, p, f);
    && verdict.Some?
    && finding.policyID == p.id && finding.severity == p.severity && finding.message == p.message
    && finding.fqn == f
    && finding.source == verdict.value.source.site && finding.sink == verdict.value.sink.site
    && Counterexample(d, f, verdict.value.source.carrier, finding.sourceChain)
    && Counterexample(d, f, verdict.value.sink.carrier, finding.sinkChain)
    && finding.fix == RenderFix(p, verdict.value.sink.call)
  }

  lemma FindingUnique(d: Snapshot, p: Policy, f: FQN, a: Finding, b: Finding)
    requires IsFinding(d, p, f, a) && IsFinding(d, p, f, b)
    ensures a == b
  {
    var verdict := Verdict(d, p, f).value;
    CounterexampleUnique(d, f, verdict.source.carrier, a.sourceChain, b.sourceChain);
    CounterexampleUnique(d, f, verdict.sink.carrier, a.sinkChain, b.sinkChain);
  }

  /** A violator that every violator it can reach can reach back. */
  ghost predicate Reported(d: Snapshot, p: Policy, f: FQN) {
    && f in d.funcs && Violates(d, p, f)
    && forall g :: CanReach(d, f, g) && Violates(d, p, g) ==> CanReach(d, g, f)
  }

  ghost predicate IsModuleFinding(d: Snapshot, p: Policy, finding: Finding) {
    var verdict := Evaluate(p, Bucket(d.calls, ""), Bucket(d.fields, ""), []);
    && verdict.Some?
    && finding == Finding(p.id, p.severity, p.message, MODULE_SCOPE, verdict.value.source.site,
                          verdict.value.sink.site, [], [], RenderFix(p, verdict.value.sink.call))
  }

  ghost predicate IsSuppressed(d: Snapshot, p: Policy, finding: Finding) {
    || d.Suppresses(finding.source.path, finding.source.line, p.id)
    || d.Suppresses(finding.sink.path, finding.sink.line, p.id)
  }

  /** What must be in the result. */
  ghost predicate Expected(d: Snapshot, p: Policy, finding: Finding) {
    && (IsModuleFinding(d, p, finding) || (Reported(d, p, finding.fqn) && IsFinding(d, p, finding.fqn, finding)))
    && !IsSuppressed(d, p, finding)
  }

  /** Ascending by function name. */
  ghost predicate ByName(findings: seq<Finding>) {
    forall i, j :: 0 <= i < j < |findings| ==> Less(findings[i].fqn, findings[j].fqn)
  }

  /** The complete result: every expected finding, nothing else, in ascending order of
      function name with no name twice. */
  ghost predicate IsAnalysis(d: Snapshot, p: Policy, findings: seq<Finding>) {
    && ByName(findings)
    && forall f :: f in findings <==> Expected(d, p, f)
  }

  // ---------------------------------------------------------------- counterexample chains

  method ChainHops(path: seq<FQN>, bridges: Bridges, ghost d: Snapshot, ghost src: FQN, ghost dst: FQN)
    returns (hops: seq<ChainHop>)
    requires IsBridgeMap(d, bridges) && Chain(CalleeMap(d), src, dst, path)
    ensures HopNames(hops) == path && Annotated(d, hops)
  {
    hops := [];
    for i := 0 to |path|
      invariant |hops| == i
      invariant forall k :: 0 <= k < i ==> hops[k].fqn == path[k] && HopFits(d, hops[k], Next(path, k))
    {
      var hop := ChainHop(path[i], "", 0);
      if i + 1 < |path| {
        assert Edge(CalleeMap(d), path[i], path[i + 1]);
        if (path[i], path[i + 1]) in bridges {
          var cs := bridges[(path[i], path[i + 1])];
          hop := ChainHop(path[i], cs.file.path, cs.line);
        }
      }
      hops := hops + [hop];
    }
    assert HopNames(hops) == path;
  }

  /** BFS, then annotation: a genuine counterexample whenever `dst` is reachable. */
  method RenderChain(src: FQN, dst: FQN, callees: Callees, bridges: Bridges, ghost d: Snapshot)
    returns (hops: seq<ChainHop>)
    requires WellFormed(d) && callees == CalleeMap(d) && IsBridgeMap(d, bridges)
    requires src != "" && dst != "" && CanReach(d, src, dst)
    ensures Counterexample(d, src, dst, hops)
  {
    assert "" !in Names(callees);
    var path := ShortestPath(src, dst, callees);
    hops := ChainHops(path, bridges, d, src, dst);
  }

  // ---------------------------------------------------------------- analyzeFunctions

  method ComputeClosures(g: Graph, callees: Callees) returns (closures: map<FQN, set<FQN>>)
    ensures closures.Keys == g.View().funcs.Keys
    ensures forall f :: f in closures ==> closures[f] == Closure(callees, f)
  {
    closures := map[];
    var todo := g.Funcs.Keys;
    while todo != {}
      invariant todo <= g.Funcs.Keys && closures.Keys == g.Funcs.Keys - todo
      invariant forall f :: f in closures ==> closures[f] == Closure(callees, f)
    {
      var f :| f in todo;
      var closure := TransitiveCallees(f, callees);
      closures := closures[f := closure];
      todo := todo - {f};
    }
  }

  /** The body of the violator loop for one function. */
  method AnalyzeOne(g: Graph, p: Policy, f: FQN, closure: set<FQN>, sortedFuncs: seq<FQN>,
                    callees: Callees, bridges: Bridges)
    returns (finding: Option<Finding>)
    requires WellFormed(g.View()) && f in g.View().funcs
    requires callees == CalleeMap(g.View()) && IsBridgeMap(g.View(), bridges)
    requires closure == Closure(callees, f) && sortedFuncs == SortedNames(g.View().funcs.Keys)
    ensures finding.Some? <==> Violates(g.View(), p, f)
    ensures finding.Some? ==> IsFinding(g.View(), p, f, finding.value)
  {
    ghost var d := g.View();
    var sites := Collect(g.Calls, closure, sortedFuncs);
    var fields := Collect(g.Fields, closure, sortedFuncs);
    var decorators := Collect(DecoratorsOf(g.Funcs), closure, sortedFuncs);
    var ev := Evaluate(p, sites, fields, decorators);
    VerdictIff(d, p, f);
    if ev.None? {
      return None;
    }
    CarrierReachable(d, p.source, f);
    CarrierReachable(d, p.sink, f);
    var source, sink := ev.value.source, ev.value.sink;
    var sourceChain := RenderChain(f, source.carrier, callees, bridges, d);
    var sinkChain := RenderChain(f, sink.carrier, callees, bridges, d);
    return Some(Finding(p.id, p.severity, p.message, f, source.site, sink.site,
                        sourceChain, sinkChain, RenderFix(p, sink.call)));
  }

  method FindViolators(g: Graph, p: Policy, closures: map<FQN, set<FQN>>, sortedFuncs: seq<FQN>,
                       callees: Callees, bridges: Bridges)
    returns (violators: map<FQN, Finding>)
    requires WellFormed(g.View())
    requires callees == CalleeMap(g.View()) && IsBridgeMap(g.View(), bridges)
    requires closures.Keys == g.View().funcs.Keys && forall f :: f in closures ==> closures[f] == Closure(callees, f)
    requires sortedFuncs == SortedNames(g.View().funcs.Keys)
    ensures forall f :: f in violators <==> f in g.View().funcs && Violates(g.View(), p, f)
    ensures forall f :: f in violators ==> IsFinding(g.View(), p, f, violators[f])
  {
    violators := map[];
    var todo := g.Funcs.Keys;
    while todo != {}
      invariant todo <= g.Funcs.Keys
      invariant forall f :: f in violators <==> f in g.Funcs && f !in todo && Violates(g.View(), p, f)
      invariant forall f :: f in violators ==> IsFinding(g.View(), p, f, violators[f])
    {
      var f :| f in todo;
      todo := todo - {f};
      var finding := AnalyzeOne(g, p, f, closures[f], sortedFuncs, callees, bridges);
      if finding.Some? {
        violators := violators[f := finding.value];
      }
    }
  }

  /** Drops a violator when some other violator in its closure has a smaller closure. */
  method MinimalViolators(violators: map<FQN, Finding>, closures: map<FQN, set<FQN>>) returns (out: seq<Finding>)
    requires forall f :: f in violators ==> f in closures && violators[f].fqn == f
    requires forall f, h :: f in violators && h in closures[f] ==> h in closures
    ensures forall i, j :: 0 <= i < j < |out| ==> out[i].fqn != out[j].fqn
    ensures forall x :: x in out <==>
      x.fqn in violators && violators[x.fqn] == x && Smallest(violators.Keys, closures, x.fqn)
  {
    out := [];
    var todo := violators.Keys;
    while todo != {}
      invariant todo <= violators.Keys
      invariant forall i, j :: 0 <= i < j < |out| ==> out[i].fqn != out[j].fqn
      invariant forall x :: x in out <==>
        x.fqn in violators && x.fqn !in todo && violators[x.fqn] == x && Smallest(violators.Keys, closures, x.fqn)
    {
      var f :| f in todo;
      todo := todo - {f};
      var minimal := true;
      var rest := closures[f];
      while rest != {}
        invariant rest <= closures[f]
        invariant minimal
        invariant forall h :: h in closures[f] - rest && h != f && h in violators ==> |closures[h]| >= |closures[f]|
      {
        var callee :| callee in rest;
        rest := rest - {callee};
        if callee == f {
          continue;
        }
        if callee !in violators {
          continue;
        }
        if |closures[callee]| < |closures[f]| {
          minimal := false;
          break;
        }
      }
      assert minimal <==> Smallest(violators.Keys, closures, f);
      if minimal {
        out := out + [violators[f]];
      }
    }
  }

  ghost predicate Smallest(violators: set<FQN>, closures: map<FQN, set<FQN>>, f: FQN)
    requires f in closures && forall h :: h in violators ==> h in closures
  {
    forall h :: h in closures[f] && h != f && h in violators ==> |closures[h]| >= |closures[f]|
  }

  /** The size comparison selects exactly the violators that can be reached back from
      every violator they reach. */
  lemma SmallestIsReported(d: Snapshot, p: Policy, violators: set<FQN>, closures: map<FQN, set<FQN>>, f: FQN)
    requires forall h :: h in violators <==> h in d.funcs && Violates(d, p, h)
    requires closures.Keys == d.funcs.Keys && forall h :: h in closures ==> closures[h] == Closure(CalleeMap(d), h)
    requires f in violators
    ensures Smallest(violators, closures, f) <==> Reported(d, p, f)
  {
    ClosureInternal(d, f);
    forall h ensures h in closures[f] <==> CanReach(d, f, h) {
      ClosureIsReachability(CalleeMap(d), f, h);
    }
    forall h | h in closures[f]
      ensures |closures[h]| >= |closures[f]| <==> CanReach(d, h, f)
    {
      SizeTest(CalleeMap(d), f, h);
    }
    ReachesSelf(CalleeMap(d), f);
  }

  /** Findings rooted at functions: one per reported function, in no particular order. */
  method AnalyzeFunctions(g: Graph, p: Policy) returns (out: seq<Finding>)
    requires WellFormed(g.View())
    ensures forall i, j :: 0 <= i < j < |out| ==> out[i].fqn != out[j].fqn
    ensures forall x :: x in out <==> Reported(g.View(), p, x.fqn) && IsFinding(g.View(), p, x.fqn, x)
  {
    ghost var d := g.View();
    var callees := BuildCalleeMap(g);
    var bridges := BuildBridgeMap(g);
    var sortedFuncs := SortedFuncFQNs(g);
    var closures := ComputeClosures(g, callees);
    var violators := FindViolators(g, p, closures, sortedFuncs, callees, bridges);
    forall f | f in violators ensures forall h :: h in closures[f] ==> h in closures {
      ClosureInternal(d, f);
    }
    out := MinimalViolators(violators, closures);
    forall x ensures x in out <==> Reported(d, p, x.fqn) && IsFinding(d, p, x.fqn, x) {
      if x.fqn in violators {
        SmallestIsReported(d, p, violators.Keys, closures, x.fqn);
        if IsFinding(d, p, x.fqn, x) {
          FindingUnique(d, p, x.fqn, x, violators[x.fqn]);
        }
      }
    }
  }

  // ---------------------------------------------------------------- module scope, suppression, order

  method AnalyzeModuleScope(g: Graph, p: Policy) returns (out: seq<Finding>)
    ensures |out| <= 1 && forall x :: x in out <==> IsModuleFinding(g.View(), p, x)
  {
    var sites := Bucket(g.Calls, "");
    var fields := Bucket(g.Fields, "");
    if |sites| == 0 && |fields| == 0 {
      return [];
    }
    var ev := Evaluate(p, sites, fields, []);
    if ev.None? {
      return [];
    }
    var source, sink := ev.value.source, ev.value.sink;
    return [Finding(p.id, p.severity, p.message, MODULE_SCOPE, source.site, sink.site, [], [],
                    RenderFix(p, sink.call))];
  }

  /** The findings that no annotation covers, in order. */
  ghost function Unsuppressed(d: Snapshot, p: Policy, findings: seq<Finding>): (kept: seq<Finding>)
    ensures |kept| <= |findings|
    ensures forall f :: f in kept <==> f in findings && !IsSuppressed(d, p, f)
  {
    if findings == [] then []
    else
      var n := |findings| - 1;
      assert findings == findings[..n] + [findings[n]];
      Unsuppressed(d, p, findings[..n]) + if IsSuppressed(d, p, findings[n]) then [] else [findings[n]]
  }

  /** Compacts the kept findings to the front of the same backing array. */
  method FilterSuppressed(g: Graph, p: Policy, findings: array<Finding>) returns (kept: nat)
    modifies findings
    ensures kept <= findings.Length
    ensures findings[..kept] == Unsuppressed(g.View(), p, old(findings[..]))
  {
    kept := 0;
    ghost var was := findings[..];
    for i := 0 to findings.Length
      invariant kept <= i
      invariant findings[..kept] == Unsuppressed(g.View(), p, was[..i])
      invariant forall k :: i <= k < findings.Length ==> findings[k] == was[k]
    {
      assert was[..i + 1][..i] == was[..i];
      var f := findings[i];
      var hit := g.MatchSuppression(f.source.path, f.source.line, p.id);
      if hit {
        continue;
      }
      hit := g.MatchSuppression(f.sink.path, f.sink.line, p.id);
      if hit {
        continue;
      }
      findings[kept] := f;
      kept := kept + 1;
    }
    assert was[..findings.Length] == was;
  }

  /** The comparison function: function name, then source path, then source line. */
  predicate Precedes(a: Finding, b: Finding) {
    if a.fqn != b.fqn then Less(a.fqn, b.fqn)
    else if a.source.path != b.source.path then Less(a.source.path, b.source.path)
    else a.source.line < b.source.line
  }

  predicate FindingLeq(a: Finding, b: Finding) {
    !Precedes(b, a)
  }

  lemma FindingLeqIsPreorder()
    ensures Preorder(FindingLeq)
  {
    forall a: Finding, b: Finding ensures FindingLeq(a, b) || FindingLeq(b, a) {
      LessAsymmetric(a.fqn, b.fqn);
      LessAsymmetric(a.source.path, b.source.path);
    }
    forall a: Finding, b: Finding, c: Finding | FindingLeq(a, b) && FindingLeq(b, c) ensures FindingLeq(a, c) {
      LeqByName(a, b);
      LeqByName(b, c);
      LeqByName(a, c);
      NameLeqTransitiveIf(a.fqn, b.fqn, c.fqn);
      NameLeqTransitiveIf(a.source.path, b.source.path, c.source.path);
    }
  }

  lemma LeqByName(a: Finding, b: Finding)
    ensures FindingLeq(a, b) <==>
      || Less(a.fqn, b.fqn)
      || (a.fqn == b.fqn && (|| Less(a.source.path, b.source.path)
                             || (a.source.path == b.source.path && a.source.line <= b.source.line)))
  {
    LessTotal(a.fqn, b.fqn);
    LessAsymmetric(a.fqn, b.fqn);
    LessTotal(a.source.path, b.source.path);
    LessAsymmetric(a.source.path, b.source.path);
    LessIrreflexive(a.fqn);
    LessIrreflexive(a.source.path);
  }

  lemma NameLeqTransitiveIf(a: string, b: string, c: string)
    ensures Less(a, b) && Less(b, c) ==> Less(a, c)
  {
    if Less(a, b) && Less(b, c) {
      LessTransitive(a, b, c);
    }
  }

  /** The whole analysis of one policy: for every iteration order of the maps and every
      tie-breaking of the sort, the one sequence that `IsAnalysis` describes. */
  method Analyze(g: Graph, p: Policy) returns (findings: seq<Finding>)
    requires WellFormed(g.View())
    ensures IsAnalysis(g.View(), p, findings)
  {
    ghost var d := g.View();
    var functions := AnalyzeFunctions(g, p);
    var moduleScope := AnalyzeModuleScope(g, p);
    var all := functions + moduleScope;
    var buffer := new Finding[|all|](i requires 0 <= i < |all| => all[i]);
    assert buffer[..] == all;
    var kept := FilterSuppressed(g, p, buffer);
    var remaining := buffer[..kept];
    FindingLeqIsPreorder();
    findings := Sort(remaining, FindingLeq);
    SameElements(remaining, findings);
    OneEach(d, p, functions, moduleScope);
    UnsuppressedNames(d, p, all);
    PermutedNames(remaining, findings);
    forall i, j | 0 <= i < j < |findings| ensures Less(findings[i].fqn, findings[j].fqn) {
      assert FindingLeq(findings[i], findings[j]);
      LeqByName(findings[i], findings[j]);
    }
  }

  ghost predicate DistinctNames(findings: seq<Finding>) {
    forall i, j :: 0 <= i < j < |findings| ==> findings[i].fqn != findings[j].fqn
  }

  lemma OneEach(d: Snapshot, p: Policy, functions: seq<Finding>, moduleScope: seq<Finding>)
    requires WellFormed(d) && DistinctNames(functions) && |moduleScope| <= 1
    requires forall x :: x in functions ==> Reported(d, p, x.fqn)
    requires forall x :: x in moduleScope ==> IsModuleFinding(d, p, x)
    ensures DistinctNames(functions + moduleScope)
  {
    forall x, y | x in functions && y in moduleScope ensures x.fqn != y.fqn {
      assert y.fqn == MODULE_SCOPE;
    }
  }

  lemma {:induction false} UnsuppressedNames(d: Snapshot, p: Policy, findings: seq<Finding>)
    requires DistinctNames(findings)
    ensures DistinctNames(Unsuppressed(d, p, findings))
  {
    if findings != [] {
      var n := |findings| - 1;
      UnsuppressedNames(d, p, findings[..n]);
      forall x | x in Unsuppressed(d, p, findings[..n]) ensures x.fqn != findings[n].fqn {
        assert x in findings[..n];
      }
    }
  }

  lemma PermutedNames(a: seq<Finding>, b: seq<Finding>)
    requires DistinctNames(a) && multiset(a) == multiset(b)
    ensures DistinctNames(b)
  {
    forall i, j | 0 <= i < j < |b| ensures b[i].fqn != b[j].fqn {
      if b[i].fqn == b[j].fqn {
        SameElements(a, b);
        assert b[i] in a && b[j] in a;
        assert b == b[..i] + [b[i]] + b[i + 1..j] + [b[j]] + b[j + 1..];
        assert multiset(b)[b[i]] >= 2;
        FindingOnce(a, b[i]);
      }
    }
  }

  lemma {:induction false} FindingOnce(s: seq<Finding>, x: Finding)
    requires DistinctNames(s)
    ensures multiset(s)[x] <= 1
  {
    if s != [] {
      FindingOnce(s[1..], x);
      assert s == [s[0]] + s[1..];
      if x == s[0] {
        assert x !in s[1..];
      }
    }
  }
}
