/** A run that applies the patches of its own findings: on files that have not changed since
    they were parsed every patch is in range and fits, so only patches that compete for one
    line can be lost. */
module ApplyRun {
  import opened Text
  import opened Syntax
  import opened CallGraph
  import opened Policies
  import opened Matching
  import opened Autofix
  import opened Solver
  import opened Analysis
  import opened PatchApply
  import opened LinePatch
  import opened ServiceMap
  import Pipeline
  import ParsedTrees
  import PythonGraph
  import GoBuild
  import GoOrder

  type Files = map<string, string>

  /** The file on disk is the one that was parsed, and the tree agrees with its bytes. */
  ghost predicate NodeOnDisk(files: Files, file: File, n: Node) {
    file.path in files && files[file.path] == file.source && AllLocated(file.source, n)
  }

  ghost predicate SiteOnDisk(files: Files, s: CallSite) {
    s.node.Some? ==> NodeOnDisk(files, s.file, s.node.value)
  }

  ghost predicate OnDisk(files: Files, d: Snapshot) {
    forall f, s :: s in Bucket(d.calls, f) ==> SiteOnDisk(files, s)
  }

  // ---------------------------------------------------------------- every patch fits

  ghost predicate FitsOnDisk(files: Files, p: Patch) {
    p.path in files && FitsFile(files[p.path], p)
  }

  lemma WrapPatchFits(files: Files, sink: CallSite, argIdx: int, guardCall: string)
    requires SiteOnDisk(files, sink) && BuildWrapPatch(sink, argIdx, guardCall).Some?
    ensures FitsOnDisk(files, BuildWrapPatch(sink, argIdx, guardCall).value)
  {
    var arg := PositionalAt(FindArgumentList(sink.node.value).value, argIdx).value;
    ArgumentLocated(sink.file.source, sink.node.value, argIdx);
    PatchFits(sink.file, arg, guardCall);
  }

  lemma SinkPatchFits(files: Files, p: Policy, hit: Hit)
    requires hit.call.Some? ==> SiteOnDisk(files, hit.call.value)
    requires RenderFix(p, hit.call).Some? && RenderFix(p, hit.call).value.patch.Some?
    ensures FitsOnDisk(files, RenderFix(p, hit.call).value.patch.value)
  {
    WrapPatchFits(files, hit.call.value, p.fix.value.wrapArgument.value, FirstGuardCall(p.guard.anyOf));
  }

  lemma FindingPatchFits(files: Files, d: Snapshot, p: Policy, finding: Finding)
    requires OnDisk(files, d) && Expected(d, p, finding) && PatchOf(finding).Some?
    ensures FitsOnDisk(files, PatchOf(finding).value)
  {
    if IsModuleFinding(d, p, finding) {
      var hit := Evaluate(p, Bucket(d.calls, ""), Bucket(d.fields, ""), []).value.sink;
      assert hit.call.Some? ==> hit.call.value in Bucket(d.calls, "");
      SinkPatchFits(files, p, hit);
    } else {
      var hit := Verdict(d, p, finding.fqn).value.sink;
      if hit.call.Some? {
        SinkIsCall(d, p.sink, finding.fqn, hit);
      }
      SinkPatchFits(files, p, hit);
    }
  }

  ghost predicate AllFit(files: Files, findings: seq<Finding>) {
    forall f :: f in findings && PatchOf(f).Some? ==> FitsOnDisk(files, PatchOf(f).value)
  }

  lemma AnalysisPatchesFit(files: Files, d: Snapshot, p: Policy, findings: seq<Finding>)
    requires OnDisk(files, d) && IsAnalysis(d, p, findings)
    ensures AllFit(files, findings)
  {
    forall f | f in findings && PatchOf(f).Some? ensures FitsOnDisk(files, PatchOf(f).value) {
      FindingPatchFits(files, d, p, f);
    }
  }

  /** Every patch in a report is inside its file and expects what the file holds. */
  lemma {:induction false} ReportPatchesFit(files: Files, d: Snapshot, policies: seq<Policy>, all: seq<Finding>)
    requires OnDisk(files, d) && Pipeline.IsReport(d, policies, all)
    ensures AllFit(files, all)
    decreases |policies|
  {
    if policies != [] {
      var n := |policies| - 1;
      var k :| 0 <= k <= |all| && Pipeline.IsReport(d, policies[..n], all[..k]) && IsAnalysis(d, policies[n], all[k..]);
      ReportPatchesFit(files, d, policies[..n], all[..k]);
      AnalysisPatchesFit(files, d, policies[n], all[k..]);
      BothFit(files, all[..k], all[k..]);
      assert all == all[..k] + all[k..];
    }
  }

  lemma BothFit(files: Files, a: seq<Finding>, b: seq<Finding>)
    requires AllFit(files, a) && AllFit(files, b)
    ensures AllFit(files, a + b)
  {
  }

  /** The service map adds no site that could not be patched. */
  lemma {:induction false} AppliedOnDisk(files: Files, d: Snapshot, edges: seq<ServiceEdge>, n: nat)
    requires n <= |edges| && OnDisk(files, d)
    ensures OnDisk(files, Applied(d, edges, n))
  {
    if n > 0 {
      AppliedOnDisk(files, d, edges, n - 1);
      if edges[n - 1].to in d.funcs {
        EdgeOnDisk(files, Applied(d, edges, n - 1), edges[n - 1]);
      }
    }
  }

  lemma EdgeOnDisk(files: Files, d: Snapshot, edge: ServiceEdge)
    requires OnDisk(files, d)
    ensures OnDisk(files, d.(calls := EdgeStep(d.calls, edge)))
  {
    var calls := EdgeStep(d.calls, edge);
    forall f, s | s in Bucket(calls, f) ensures SiteOnDisk(files, s) {
      assert f in d.calls && calls[f] == Extended(f, edge, d.calls[f]);
      var x := ExtendedFrom(f, edge, d.calls[f], s);
      assert x in Bucket(d.calls, f) && SiteOnDisk(files, x);
    }
  }

  /** A synthetic site keeps file and node of an earlier one. */
  lemma ExtendedFrom(caller: FQN, edge: ServiceEdge, sites: seq<CallSite>, s: CallSite) returns (x: CallSite)
    requires s in Extended(caller, edge, sites)
    ensures x in sites && s.file == x.file && s.node == x.node
  {
    if s in sites {
      x := s;
    } else {
      assert s in Synthesize(caller, edge.to, Matched(edge.from, sites));
      x :| x in Matched(edge.from, sites) && s == Synthetic(caller, edge.to, x);
    }
  }

  // ---------------------------------------------------------------- what the files become

  ghost predicate Targeted(patches: seq<Patch>, i: nat) {
    exists p :: p in patches && p.line - 1 == i
  }

  /** Every targeted line is the new line of a patch for it, every other line is kept. */
  ghost predicate Rewrites(lines: seq<string>, patches: seq<Patch>, result: seq<string>) {
    && |result| == |lines|
    && (forall i :: 0 <= i < |lines| && !Targeted(patches, i) ==> result[i] == lines[i])
    && forall i :: 0 <= i < |lines| && Targeted(patches, i) ==> NewLineOf(patches, i, result[i])
  }

  ghost predicate NewLineOf(patches: seq<Patch>, i: nat, text: string) {
    exists p :: p in patches && p.line - 1 == i && text == p.newLine
  }

  /** No patch competes with a different one for its line. */
  ghost predicate Agree(patches: seq<Patch>) {
    forall p, q :: p in patches && q in patches && p.line == q.line ==> p.newLine == q.newLine
  }

  ghost predicate InEffect(patches: seq<Patch>, result: seq<string>) {
    forall p :: p in patches ==> IsLine(result, p)
  }

  predicate IsLine(result: seq<string>, p: Patch) {
    InRange(result, p) && result[p.line - 1] == p.newLine
  }

  lemma OwnPatchesRewrite(src: string, patches: seq<Patch>, out: string) returns (result: seq<string>)
    requires Rewritten(src, patches, out) && forall p :: p in patches ==> FitsFile(src, p)
    ensures out == Join(result, '\n') && Rewrites(Split(src, '\n'), patches, result)
  {
    var lines := Split(src, '\n');
    result :| |result| == |lines| && out == Join(result, '\n')
              && forall i :: 0 <= i < |lines| ==> LineRewritten(lines, patches, i, result[i]);
    forall i | 0 <= i < |lines| ensures SomeFits(lines, patches, i) <==> Targeted(patches, i) {
    }
  }

  /** No patch is lost exactly when those for the same line agree. */
  lemma NoneLostIff(lines: seq<string>, patches: seq<Patch>, result: seq<string>)
    requires Rewrites(lines, patches, result) && forall p :: p in patches ==> InRange(lines, p)
    ensures InEffect(patches, result) <==> Agree(patches)
  {
    if InEffect(patches, result) {
      forall p, q | p in patches && q in patches && p.line == q.line ensures p.newLine == q.newLine {
        SameLine(result, p, q);
      }
    }
    if Agree(patches) {
      forall p | p in patches ensures IsLine(result, p) {
        AgreedLine(lines, patches, result, p);
      }
    }
  }

  lemma SameLine(result: seq<string>, p: Patch, q: Patch)
    requires IsLine(result, p) && IsLine(result, q) && p.line == q.line
    ensures p.newLine == q.newLine
  {
  }

  lemma AgreedLine(lines: seq<string>, patches: seq<Patch>, result: seq<string>, p: Patch)
    requires Rewrites(lines, patches, result) && Agree(patches) && p in patches && InRange(lines, p)
    ensures IsLine(result, p)
  {
    var i := p.line - 1;
    assert Targeted(patches, i);
    var q :| q in patches && q.line - 1 == i && result[i] == q.newLine;
  }

  /** What a run makes of one file. */
  ghost predicate OwnRewritten(src: string, patches: seq<Patch>, out: string) {
    exists result :: out == Join(result, '\n') && Rewrites(Split(src, '\n'), patches, result)
                     && (InEffect(patches, result) <==> Agree(patches))
  }

  lemma OwnRewrite(src: string, patches: seq<Patch>, out: string)
    requires Rewritten(src, patches, out) && forall p :: p in patches ==> FitsFile(src, p)
    ensures OwnRewritten(src, patches, out)
  {
    var result := OwnPatchesRewrite(src, patches, out);
    NoneLostIff(Split(src, '\n'), patches, result);
  }

  ghost predicate AllPatched(all: seq<Finding>) {
    forall f :: f in all ==> PatchOf(f).Some?
  }

  lemma FileIsOwn(files: Files, all: seq<Finding>, path: string, now: string)
    requires AllFit(files, all) && path in files && FileRewritten(files, all, path, now)
    ensures OwnRewritten(files[path], PatchesFor(all, path), now)
  {
    forall p | p in PatchesFor(all, path) ensures FitsFile(files[path], p) {
      assert FitsOnDisk(files, p);
    }
    OwnRewrite(files[path], PatchesFor(all, path), now);
  }

  /** The tail of a run that applies patches: it succeeds exactly when every finding has a
      patch, and every file becomes what its patches say. */
  method CheckAndApply(g: Graph, edges: seq<ServiceEdge>, policies: seq<Policy>, files: Files)
    returns (all: seq<Finding>, patched: Files, exitCode: int)
    requires g.Valid() && WellFormed(g.View()) && OnDisk(files, g.View())
    modifies g
    ensures g.View() == Applied(old(g.View()), edges, |edges|) && Pipeline.IsReport(g.View(), policies, all)
    ensures exitCode == (if AllPatched(all) then 0 else 1)
    ensures patched.Keys == files.Keys
    ensures forall path :: path in files ==> OwnRewritten(files[path], PatchesFor(all, path), patched[path])
  {
    all := Pipeline.RunPolicies(g, edges, policies);
    AppliedOnDisk(files, old(g.View()), edges, |edges|);
    ReportPatchesFit(files, g.View(), policies, all);
    patched, exitCode := ApplyPatches(files, all);
    forall path | path in files ensures OwnRewritten(files[path], PatchesFor(all, path), patched[path]) {
      FileIsOwn(files, all, path, patched[path]);
    }
  }

  // ---------------------------------------------------------------- from source files

  ghost function TreesOnDisk(files: Files): ParsedTrees.Trees {
    iset t: (File, Node) | NodeOnDisk(files, t.0, t.1)
  }

  /** A whole Python run with patches applied, from the trees of the files on disk. */
  method CheckAndApplyPython(sources: seq<PythonGraph.Source>, ignores: seq<Suppression>, edges: seq<ServiceEdge>,
                             policies: seq<Policy>, files: Files)
    returns (all: seq<Finding>, patched: Files, exitCode: int)
    requires forall s :: s in sources ==> NodeOnDisk(files, s.file, s.root)
    ensures
      var d := Pipeline.WithIgnores(PythonGraph.Built(sources, |sources|), ignores, |ignores|);
      Pipeline.IsReport(Applied(d, edges, |edges|), policies, all)
    ensures exitCode == (if AllPatched(all) then 0 else 1)
    ensures patched.Keys == files.Keys
    ensures forall path :: path in files ==> OwnRewritten(files[path], PatchesFor(all, path), patched[path])
  {
    var g := PythonGraph.BuildPython(sources);
    PythonGraph.BuiltIsSound(sources, |sources|);
    ParsedTrees.PythonFrom(TreesOnDisk(files), sources, |sources|);
    Pipeline.IgnoresKeepRest(g.View(), ignores, |ignores|);
    Pipeline.AddIgnores(g, ignores);
    all, patched, exitCode := CheckAndApply(g, edges, policies, files);
  }

  /** The same for Go files whose call expressions carry nodes of such trees. */
  method CheckAndApplyGo(sources: seq<GoBuild.GoFile>, ignores: seq<Suppression>, edges: seq<ServiceEdge>,
                         policies: seq<Policy>, files: Files)
    returns (all: seq<Finding>, patched: Files, exitCode: int)
    requires Pipeline.Identifiers(sources)
    requires forall f, d :: f in sources && d in f.decls ==> ParsedTrees.GoDeclFrom(TreesOnDisk(files), f.file, d)
    ensures
      var d := Pipeline.WithIgnores(GoBuild.Built(sources), ignores, |ignores|);
      Pipeline.IsReport(Applied(d, edges, |edges|), policies, all)
    ensures exitCode == (if AllPatched(all) then 0 else 1)
    ensures patched.Keys == files.Keys
    ensures forall path :: path in files ==> OwnRewritten(files[path], PatchesFor(all, path), patched[path])
  {
    var g := GoBuild.BuildGo(sources);
    GoOrder.BuiltIs(sources);
    Pipeline.PhaseAProper(sources, |sources|);
    ParsedTrees.GoFrom(TreesOnDisk(files), sources);
    Pipeline.IgnoresKeepRest(g.View(), ignores, |ignores|);
    Pipeline.AddIgnores(g, ignores);
    all, patched, exitCode := CheckAndApply(g, edges, policies, files);
  }
}
