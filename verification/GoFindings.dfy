/** The findings of a Go run and the order of the files: those at functions do not depend
    on it when no two files define the same function. */
module GoFindings {
  import opened Text
  import opened CallGraph
  import opened Policies
  import opened Reachability
  import opened Sorting
  import opened Solver
  import opened Analysis
  import opened ServiceMap
  import Pipeline
  import MinimalViolators
  import GoBuild
  import GoOrder

  // ---------------------------------------------------------------- graphs with the same bodies

  /** The graphs hold the same functions with the same calls and reads, and the same lines are
      suppressed. What happens at module scope is left open. */
  ghost predicate Alike(a: Snapshot, b: Snapshot) {
    && a.funcs == b.funcs
    && (forall f :: f != "" ==> Bucket(a.calls, f) == Bucket(b.calls, f) && Bucket(a.fields, f) == Bucket(b.fields, f))
    && forall path, line, id :: a.Suppresses(path, line, id) <==> b.Suppresses(path, line, id)
  }

  lemma EdgeStepOn(calls: map<FQN, seq<CallSite>>, edge: ServiceEdge, f: FQN)
    ensures Bucket(EdgeStep(calls, edge), f) == Extended(f, edge, Bucket(calls, f))
  {
  }

  lemma {:induction false} AppliedAlike(a: Snapshot, b: Snapshot, edges: seq<ServiceEdge>, n: nat)
    requires Alike(a, b) && n <= |edges|
    ensures Alike(Applied(a, edges, n), Applied(b, edges, n))
  {
    if n > 0 {
      AppliedAlike(a, b, edges, n - 1);
      StepAlike(Applied(a, edges, n - 1), Applied(b, edges, n - 1), edges[n - 1]);
    }
  }

  lemma StepAlike(a: Snapshot, b: Snapshot, edge: ServiceEdge)
    requires Alike(a, b)
    ensures Alike(a.(calls := EdgeStep(a.calls, edge)), b.(calls := EdgeStep(b.calls, edge)))
  {
    var x, y := EdgeStep(a.calls, edge), EdgeStep(b.calls, edge);
    forall f | f != "" ensures Bucket(x, f) == Bucket(y, f) {
      EdgeStepOn(a.calls, edge, f);
      EdgeStepOn(b.calls, edge, f);
    }
    SameSuppression(a, b, a.(calls := x), b.(calls := y));
  }

  lemma SameSuppression(a: Snapshot, b: Snapshot, x: Snapshot, y: Snapshot)
    requires Alike(a, b) && x.suppressions == a.suppressions && y.suppressions == b.suppressions
    ensures forall path, line, id :: x.Suppresses(path, line, id) <==> y.Suppresses(path, line, id)
  {
    forall path, line, id ensures x.Suppresses(path, line, id) <==> y.Suppresses(path, line, id) {
      assert a.Suppresses(path, line, id) <==> b.Suppresses(path, line, id);
    }
  }

  lemma CalleesAlike(a: Snapshot, b: Snapshot)
    requires Alike(a, b)
    ensures CalleeMap(a) == CalleeMap(b)
  {
    forall f ensures f in CalleeMap(a) <==> f in CalleeMap(b) {
      assert f != "" ==> Bucket(a.calls, f) == Bucket(b.calls, f);
    }
    forall f | f in CalleeMap(a) ensures CalleeMap(a)[f] == CalleeMap(b)[f] {
      assert Bucket(a.calls, f) == Bucket(b.calls, f);
    }
    assert CalleeMap(a).Keys == CalleeMap(b).Keys;
    MapsEqual(CalleeMap(a), CalleeMap(b));
  }

  lemma {:induction false} GatherAlike<T(!new)>(x: map<FQN, seq<T>>, y: map<FQN, seq<T>>,
                                                closure: set<FQN>, names: seq<FQN>)
    requires forall f :: f in names ==> Bucket(x, f) == Bucket(y, f)
    ensures Gather(x, closure, names) == Gather(y, closure, names)
  {
    if names != [] {
      GatherAlike(x, y, closure, names[..|names| - 1]);
    }
  }

  lemma VerdictAlike(a: Snapshot, b: Snapshot, p: Policy, f: FQN)
    requires Alike(a, b) && "" !in a.funcs
    ensures Verdict(a, p, f) == Verdict(b, p, f)
  {
    CalleesAlike(a, b);
    var names, closure := SortedNames(a.funcs.Keys), Closure(CalleeMap(a), f);
    GatherAlike(a.calls, b.calls, closure, names);
    GatherAlike(a.fields, b.fields, closure, names);
  }

  lemma ReportedAlike(a: Snapshot, b: Snapshot, p: Policy, f: FQN)
    requires Alike(a, b) && "" !in a.funcs && Reported(a, p, f)
    ensures Reported(b, p, f)
  {
    CalleesAlike(a, b);
    ViolatesAlike(a, b, p, f);
    forall g | CanReach(b, f, g) && Violates(b, p, g) ensures CanReach(b, g, f) {
      ClosureInternal(a, f);
      ClosureIsReachability(CalleeMap(a), f, g);
      ViolatesAlike(a, b, p, g);
    }
  }

  lemma ViolatesAlike(a: Snapshot, b: Snapshot, p: Policy, f: FQN)
    requires Alike(a, b) && "" !in a.funcs && f in a.funcs
    ensures Violates(a, p, f) <==> Violates(b, p, f)
  {
    VerdictAlike(a, b, p, f);
    VerdictIff(a, p, f);
    VerdictIff(b, p, f);
  }

  lemma CounterexampleAlike(a: Snapshot, b: Snapshot, src: FQN, dst: FQN, hops: seq<ChainHop>)
    requires Alike(a, b) && Counterexample(a, src, dst, hops)
    ensures Counterexample(b, src, dst, hops)
  {
    CalleesAlike(a, b);
    forall i | 0 <= i < |hops| ensures HopFits(b, hops[i], Next(HopNames(hops), i)) {
      assert HopFits(a, hops[i], Next(HopNames(hops), i));
      if i + 1 < |hops| {
        assert Edge(CalleeMap(a), HopNames(hops)[i], HopNames(hops)[i + 1]);
        assert Bucket(a.calls, hops[i].fqn) == Bucket(b.calls, hops[i].fqn);
      }
    }
  }

  lemma FindingAlike(a: Snapshot, b: Snapshot, p: Policy, f: FQN, x: Finding)
    requires Alike(a, b) && "" !in a.funcs && IsFinding(a, p, f, x)
    ensures IsFinding(b, p, f, x)
  {
    VerdictAlike(a, b, p, f);
    var verdict := Verdict(a, p, f).value;
    CounterexampleAlike(a, b, f, verdict.source.carrier, x.sourceChain);
    CounterexampleAlike(a, b, f, verdict.sink.carrier, x.sinkChain);
  }

  lemma ExpectedAlike(a: Snapshot, b: Snapshot, p: Policy, x: Finding)
    requires Alike(a, b) && "" !in a.funcs && x.fqn != MODULE_SCOPE && Expected(a, p, x)
    ensures Expected(b, p, x)
  {
    ReportedAlike(a, b, p, x.fqn);
    FindingAlike(a, b, p, x.fqn, x);
  }

  // ---------------------------------------------------------------- the findings at functions

  /** The findings rooted at a function, in order. */
  function AtFunctions(findings: seq<Finding>): seq<Finding> {
    if findings == [] then []
    else if findings[0].fqn == MODULE_SCOPE then AtFunctions(findings[1..])
    else [findings[0]] + AtFunctions(findings[1..])
  }

  lemma {:induction false} AtFunctionsHas(findings: seq<Finding>, x: Finding)
    ensures x in AtFunctions(findings) <==> x in findings && x.fqn != MODULE_SCOPE
  {
    if findings != [] {
      AtFunctionsHas(findings[1..], x);
      assert findings == [findings[0]] + findings[1..];
    }
  }

  lemma {:induction false} AtFunctionsByName(findings: seq<Finding>)
    requires ByName(findings)
    ensures ByName(AtFunctions(findings))
  {
    if findings != [] {
      var rest := AtFunctions(findings[1..]);
      AtFunctionsByName(findings[1..]);
      forall i | 0 <= i < |rest| ensures Less(findings[0].fqn, rest[i].fqn) {
        AtFunctionsHas(findings[1..], rest[i]);
      }
    }
  }

  lemma {:induction false} AtFunctionsAppend(a: seq<Finding>, b: seq<Finding>)
    ensures AtFunctions(a + b) == AtFunctions(a) + AtFunctions(b)
  {
    if a == [] {
      assert a + b == b;
    } else {
      AtFunctionsAppend(a[1..], b);
      assert (a + b)[1..] == a[1..] + b && (a + b)[0] == a[0];
    }
  }

  lemma AnalysisAlike(a: Snapshot, b: Snapshot, p: Policy, x: seq<Finding>, y: seq<Finding>)
    requires Alike(a, b) && "" !in a.funcs && IsAnalysis(a, p, x) && IsAnalysis(b, p, y)
    ensures AtFunctions(x) == AtFunctions(y)
  {
    forall f ensures f in AtFunctions(x) <==> f in AtFunctions(y) {
      AtFunctionsHas(x, f);
      AtFunctionsHas(y, f);
      if f in AtFunctions(x) {
        ExpectedAlike(a, b, p, f);
      }
      if f in AtFunctions(y) {
        ExpectedAlike(b, a, p, f);
      }
    }
    AtFunctionsByName(x);
    AtFunctionsByName(y);
    MinimalViolators.ByNameUnique(AtFunctions(x), AtFunctions(y));
  }

  lemma {:induction false} ReportAlike(a: Snapshot, b: Snapshot, policies: seq<Policy>,
                                       x: seq<Finding>, y: seq<Finding>)
    requires Alike(a, b) && "" !in a.funcs
    requires Pipeline.IsReport(a, policies, x) && Pipeline.IsReport(b, policies, y)
    ensures AtFunctions(x) == AtFunctions(y)
    decreases |policies|
  {
    if policies != [] {
      var n := |policies| - 1;
      var before, last := Pipeline.LastPolicy(a, policies, x);
      var before', last' := Pipeline.LastPolicy(b, policies, y);
      ReportAlike(a, b, policies[..n], before, before');
      AnalysisAlike(a, b, policies[n], last, last');
      AtFunctionsAppend(before, last);
      AtFunctionsAppend(before', last');
    }
  }

  // ---------------------------------------------------------------- the run

  ghost predicate SomeCovers(ignores: seq<Suppression>, path: string, line: int, id: string) {
    exists s :: s in ignores && s.path == path && Covers(s, line, id)
  }

  lemma SuppressedBy(d: Snapshot, ignores: seq<Suppression>, path: string, line: int, id: string)
    requires d.suppressions == map[]
    ensures Pipeline.WithIgnores(d, ignores, |ignores|).Suppresses(path, line, id)
       <==> SomeCovers(ignores, path, line, id)
  {
    Pipeline.IgnoresSuppress(d, ignores, |ignores|, path, line, id);
  }

  lemma IgnoresAlike(a: Snapshot, b: Snapshot, ignores: seq<Suppression>, directives: seq<Suppression>)
    requires Alike(a, b) && a.suppressions == map[] && b.suppressions == map[]
    requires forall s :: s in ignores <==> s in directives
    ensures Alike(Pipeline.WithIgnores(a, ignores, |ignores|), Pipeline.WithIgnores(b, directives, |directives|))
  {
    var x, y := Pipeline.WithIgnores(a, ignores, |ignores|), Pipeline.WithIgnores(b, directives, |directives|);
    Pipeline.IgnoresKeepRest(a, ignores, |ignores|);
    Pipeline.IgnoresKeepRest(b, directives, |directives|);
    forall path, line, id ensures x.Suppresses(path, line, id) <==> y.Suppresses(path, line, id) {
      SuppressedBy(a, ignores, path, line, id);
      SuppressedBy(b, directives, path, line, id);
    }
  }

  lemma BuiltAlike(files: seq<GoBuild.GoFile>, reordered: seq<GoBuild.GoFile>)
    requires GoOrder.UniqueNames(files) && multiset(files) == multiset(reordered)
    ensures Alike(GoBuild.Built(files), GoBuild.Built(reordered))
    ensures GoBuild.Built(files).suppressions == GoBuild.Built(reordered).suppressions == map[]
  {
    var a, b := GoBuild.Built(files), GoBuild.Built(reordered);
    GoOrder.FileOrderIrrelevant(files, reordered, "");
    GoOrder.BuiltBuckets(files, "");
    GoOrder.BuiltBuckets(reordered, "");
    forall f | f != "" ensures Bucket(a.calls, f) == Bucket(b.calls, f) && Bucket(a.fields, f) == Bucket(b.fields, f) {
      GoOrder.FileOrderIrrelevant(files, reordered, f);
    }
  }

  /** The graph that a Go run analyzes. */
  function RunGraph(files: seq<GoBuild.GoFile>, ignores: seq<Suppression>, edges: seq<ServiceEdge>): Snapshot {
    Applied(Pipeline.WithIgnores(GoBuild.Built(files), ignores, |ignores|), edges, |edges|)
  }

  /** When no two files define the same function, two runs over the same Go files and ignore
      directives, each in any order, report the same findings at functions in the same order,
      with the same chains and fixes, after any service map and for any policies. */
  lemma FindingsOrderFree(files: seq<GoBuild.GoFile>, reordered: seq<GoBuild.GoFile>,
                          ignores: seq<Suppression>, directives: seq<Suppression>,
                          edges: seq<ServiceEdge>, policies: seq<Policy>, x: seq<Finding>, y: seq<Finding>)
    requires Pipeline.Identifiers(files) && GoOrder.UniqueNames(files) && multiset(files) == multiset(reordered)
    requires forall s :: s in ignores <==> s in directives
    requires Pipeline.IsReport(RunGraph(files, ignores, edges), policies, x)
    requires Pipeline.IsReport(RunGraph(reordered, directives, edges), policies, y)
    ensures AtFunctions(x) == AtFunctions(y)
  {
    BuiltAlike(files, reordered);
    GoOrder.BuiltIs(files);
    Pipeline.PhaseAProper(files, |files|);
    IgnoresAlike(GoBuild.Built(files), GoBuild.Built(reordered), ignores, directives);
    var a := Pipeline.WithIgnores(GoBuild.Built(files), ignores, |ignores|);
    var b := Pipeline.WithIgnores(GoBuild.Built(reordered), directives, |directives|);
    Pipeline.IgnoresKeepRest(GoBuild.Built(files), ignores, |ignores|);
    AppliedAlike(a, b, edges, |edges|);
    ReportAlike(Applied(a, edges, |edges|), Applied(b, edges, |edges|), policies, x, y);
  }
}
