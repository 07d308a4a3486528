/** From sources to findings: build the graph, apply the service map, run every policy. */
module Pipeline {
  import opened Text
  import opened CallGraph
  import opened Policies
  import opened Solver
  import opened Analysis
  import opened ServiceMap
  import MinimalViolators
  import PythonGraph
  import GoBuild
  import GoOrder

  /** `all` is the findings of the policies, one policy after the other. */
  ghost predicate IsReport(d: Snapshot, policies: seq<Policy>, all: seq<Finding>)
    decreases |policies|
  {
    if policies == [] then all == []
    else
      var n := |policies| - 1;
      exists k :: 0 <= k <= |all| && IsReport(d, policies[..n], all[..k]) && IsAnalysis(d, policies[n], all[k..])
  }

  /** A report ends with the findings of the last policy. */
  lemma LastPolicy(d: Snapshot, policies: seq<Policy>, all: seq<Finding>)
    returns (before: seq<Finding>, last: seq<Finding>)
    requires policies != [] && IsReport(d, policies, all)
    ensures all == before + last
    ensures IsReport(d, policies[..|policies| - 1], before)
    ensures IsAnalysis(d, policies[|policies| - 1], last)
  {
    var n := |policies| - 1;
    var k :| 0 <= k <= |all| && IsReport(d, policies[..n], all[..k]) && IsAnalysis(d, policies[n], all[k..]);
    before, last := all[..k], all[k..];
  }

  /** There is one report per graph and list of policies. */
  lemma {:induction false} ReportUnique(d: Snapshot, policies: seq<Policy>, a: seq<Finding>, b: seq<Finding>)
    requires IsReport(d, policies, a) && IsReport(d, policies, b)
    ensures a == b
    decreases |policies|
  {
    if policies != [] {
      var n := |policies| - 1;
      var before, last := LastPolicy(d, policies, a);
      var before', last' := LastPolicy(d, policies, b);
      ReportUnique(d, policies[..n], before, before');
      MinimalViolators.AnalysisUnique(d, policies[n], last, last');
    }
  }

  /** The common tail of a run on a built graph. */
  method RunPolicies(g: Graph, edges: seq<ServiceEdge>, policies: seq<Policy>) returns (all: seq<Finding>)
    requires g.Valid() && WellFormed(g.View())
    modifies g
    ensures g.View() == Applied(old(g.View()), edges, |edges|)
    ensures IsReport(g.View(), policies, all)
  {
    Apply(g, edges);
    KeepsWellFormed(old(g.View()), edges, |edges|);
    all := [];
    for i := 0 to |policies|
      invariant g.View() == Applied(old(g.View()), edges, |edges|)
      invariant IsReport(g.View(), policies[..i], all)
    {
      var findings := Analyze(g, policies[i]);
      assert policies[..i + 1][..i] == policies[..i];
      assert (all + findings)[..|all|] == all && (all + findings)[|all|..] == findings;
      all := all + findings;
    }
    assert policies[..|policies|] == policies;
  }

  /** The graph with the first `k` ignore directives. */
  function WithIgnores(d: Snapshot, ignores: seq<Suppression>, k: nat): Snapshot
    requires k <= |ignores|
  {
    if k == 0 then d
    else
      var before, s := WithIgnores(d, ignores, k - 1), ignores[k - 1];
      before.(suppressions := Append(before.suppressions, s.path, s))
  }

  /** A directive suppresses on its own line and on the next one, and nothing else does. */
  lemma {:induction false} IgnoresSuppress(d: Snapshot, ignores: seq<Suppression>, k: nat,
                                           path: string, line: int, id: string)
    requires k <= |ignores| && d.suppressions == map[]
    ensures WithIgnores(d, ignores, k).Suppresses(path, line, id)
       <==> exists i :: 0 <= i < k && ignores[i].path == path && Covers(ignores[i], line, id)
  {
    if k > 0 {
      IgnoresSuppress(d, ignores, k - 1, path, line, id);
      var before, s := WithIgnores(d, ignores, k - 1), ignores[k - 1];
      var after := WithIgnores(d, ignores, k);
      if path == s.path {
        assert Bucket(after.suppressions, path) == Bucket(before.suppressions, path) + [s];
        assert s in Bucket(after.suppressions, path);
      } else {
        assert Bucket(after.suppressions, path) == Bucket(before.suppressions, path);
      }
    }
  }

  /** The same with the reach of a directive spelled out: the line it stands on and the line
      below, the policies it names or, by `*`, all of them. */
  lemma DirectiveReach(d: Snapshot, ignores: seq<Suppression>, path: string, line: int, id: string)
    requires d.suppressions == map[]
    ensures WithIgnores(d, ignores, |ignores|).Suppresses(path, line, id)
       <==> exists i, k ::
              && 0 <= i < |ignores| && 0 <= k < |ignores[i].policyIDs|
              && ignores[i].path == path && (line == ignores[i].line || line == ignores[i].line + 1)
              && (ignores[i].policyIDs[k] == "*" || ignores[i].policyIDs[k] == id)
  {
    IgnoresSuppress(d, ignores, |ignores|, path, line, id);
  }

  method AddIgnores(g: Graph, ignores: seq<Suppression>)
    requires g.Valid()
    modifies g
    ensures g.Valid() && g.View() == WithIgnores(old(g.View()), ignores, |ignores|)
  {
    for i := 0 to |ignores|
      invariant g.Valid() && g.View() == WithIgnores(old(g.View()), ignores, i)
    {
      g.AddSuppression(ignores[i]);
    }
  }

  lemma {:induction false} IgnoresKeepRest(d: Snapshot, ignores: seq<Suppression>, k: nat)
    requires k <= |ignores|
    ensures WithIgnores(d, ignores, k).funcs == d.funcs
    ensures WithIgnores(d, ignores, k).calls == d.calls && WithIgnores(d, ignores, k).fields == d.fields
  {
    if k > 0 {
      IgnoresKeepRest(d, ignores, k - 1);
    }
  }

  /** A Python run: the graph that the extractor builds meets every demand of the solver. */
  method RunPython(sources: seq<PythonGraph.Source>, ignores: seq<Suppression>,
                   edges: seq<ServiceEdge>, policies: seq<Policy>)
    returns (all: seq<Finding>)
    ensures
      var d := WithIgnores(PythonGraph.Built(sources, |sources|), ignores, |ignores|);
      IsReport(Applied(d, edges, |edges|), policies, all)
  {
    var g := PythonGraph.BuildPython(sources);
    PythonGraph.BuiltIsSound(sources, |sources|);
    IgnoresKeepRest(g.View(), ignores, |ignores|);
    AddIgnores(g, ignores);
    all := RunPolicies(g, edges, policies);
  }

  /** Function names of a Go file are identifiers. */
  ghost predicate Identifiers(files: seq<GoBuild.GoFile>) {
    forall f, d :: f in files && d in f.decls && d.FuncDecl? ==> d.name != "" && '<' !in d.name
  }

  lemma ComposedIsProper(mod: FQN, name: string, recvType: string)
    requires name != "" && '<' !in name
    ensures GoBuild.ComposeName(mod, name, recvType) != "" && GoBuild.ComposeName(mod, name, recvType) != MODULE_SCOPE
  {
    var full := GoBuild.ComposeName(mod, name, recvType);
    var parts := (if mod != "" then [mod] else []) + (if recvType != "" then [recvType] else []) + [name];
    if |parts| == 1 {
      assert full == name;
      assert '<' in MODULE_SCOPE by { assert MODULE_SCOPE[0] == '<'; }
    } else {
      assert full == parts[0] + ['.'] + Join(parts[1..], '.');
      assert full[|parts[0]|] == '.';
      assert forall i :: 0 <= i < |MODULE_SCOPE| ==> MODULE_SCOPE[i] != '.';
    }
  }

  lemma {:induction false} DiscoveredProper(f: GoBuild.GoFile, k: nat, funcs: GoBuild.Funcs)
    requires k <= |f.decls| && Identifiers([f]) && "" !in funcs && MODULE_SCOPE !in funcs
    ensures "" !in GoBuild.Discovered(f, k, funcs).funcs && MODULE_SCOPE !in GoBuild.Discovered(f, k, funcs).funcs
  {
    if k > 0 {
      DiscoveredProper(f, k - 1, funcs);
      var d := f.decls[k - 1];
      if d.FuncDecl? {
        assert f in [f] && d in f.decls;
        ComposedIsProper(f.mod, d.name, d.recvType);
      }
    }
  }

  lemma {:induction false} PhaseAProper(files: seq<GoBuild.GoFile>, k: nat)
    requires k <= |files| && Identifiers(files)
    ensures "" !in GoBuild.PhaseA(files, k) && MODULE_SCOPE !in GoBuild.PhaseA(files, k)
  {
    if k > 0 {
      PhaseAProper(files, k - 1);
      DiscoveredProper(files[k - 1], |files[k - 1].decls|, GoBuild.PhaseA(files, k - 1));
    }
  }

  /** A Go run. */
  method RunGo(files: seq<GoBuild.GoFile>, ignores: seq<Suppression>, edges: seq<ServiceEdge>, policies: seq<Policy>)
    returns (all: seq<Finding>)
    requires Identifiers(files)
    ensures
      var d := WithIgnores(GoBuild.Built(files), ignores, |ignores|);
      IsReport(Applied(d, edges, |edges|), policies, all)
  {
    var g := GoBuild.BuildGo(files);
    GoOrder.BuiltIs(files);
    PhaseAProper(files, |files|);
    IgnoresKeepRest(g.View(), ignores, |ignores|);
    AddIgnores(g, ignores);
    all := RunPolicies(g, edges, policies);
  }
}
