/** Two policies that wrap one argument in different guards: one of the two patches is lost,
    and the run succeeds all the same. */
module LostPatches {
  import opened Text
  import opened Syntax
  import opened CallGraph
  import opened Policies
  import opened Matching
  import opened Autofix
  import opened Reachability
  import opened Solver
  import opened Analysis
  import opened MinimalViolators
  import opened PatchApply
  import opened LinePatch
  import opened Pipeline
  import opened ApplyRun

  // ---------------------------------------------------------------- when patches compete

  lemma SameWrap(file: File, arg: Node, g: string, h: string)
    requires WrapNode(file, arg, g).Some? && WrapNode(file, arg, h).Some?
    ensures
      var a, b := WrapNode(file, arg, g).value, WrapNode(file, arg, h).value;
      a.path == b.path && a.line == b.line && a.oldLine == b.oldLine && (a.newLine == b.newLine <==> g == h)
  {
    var line := LineOf(file.source, arg.start.row + 1).value;
    var text := file.source[arg.startByte..arg.endByte];
    var tail := "(" + text + ")";
    EditedSame(line, arg.start.column, |text|, g, h, tail);
  }

  lemma EditedSame(line: string, col: nat, len: nat, g: string, h: string, tail: string)
    requires col + len <= |line|
    ensures Edited(line, col, len, g + tail) == Edited(line, col, len, h + tail) <==> g == h
  {
    var a, b := Edited(line, col, len, g + tail), Edited(line, col, len, h + tail);
    if a == b {
      assert |g| == |h|;
      assert g == a[col..col + |g|] && h == b[col..col + |h|];
    }
  }

  /** Two policies with the same sink that ask for the same argument patch the same line of
      the same file, to the same text exactly when they have the same first guard call. */
  lemma CompetingPatches(d: Snapshot, p: Policy, q: Policy, f: FQN, a: Finding, b: Finding)
    requires IsFinding(d, p, f, a) && IsFinding(d, q, f, b) && PatchOf(a).Some? && PatchOf(b).Some?
    requires p.sink == q.sink && p.fix.value.wrapArgument == q.fix.value.wrapArgument
    ensures
      var x, y := PatchOf(a).value, PatchOf(b).value;
      && x.path == y.path && x.line == y.line
      && (x.newLine == y.newLine <==> FirstGuardCall(p.guard.anyOf) == FirstGuardCall(q.guard.anyOf))
  {
    var sink := Verdict(d, p, f).value.sink.call.value;
    var arg := PositionalAt(FindArgumentList(sink.node.value).value, p.fix.value.wrapArgument.value).value;
    SameWrap(sink.file, arg, FirstGuardCall(p.guard.anyOf), FirstGuardCall(q.guard.anyOf));
  }

  // ---------------------------------------------------------------- an input that loses one

  /** A function that calls the sink, which is its source too, and nothing else. */
  ghost predicate OneCall(d: Snapshot, f: FQN, site: CallSite) {
    && d.funcs.Keys == {f} && f != "" && f != MODULE_SCOPE && d.funcs[f].fqn == f
    && d.calls == map[f := [site]] && d.fields == map[] && d.suppressions == map[] && site.caller == f
  }

  function WrapPolicy(guardCall: string): Policy {
    Policy("p", Error, "", Matcher([Calls("sink")]), Matcher([Calls("sink")]), Matcher([Calls(guardCall)]),
           Some(Fix(Unset, "", Some(0))))
  }

  ghost predicate Fires(p: Policy, site: CallSite) {
    && MatchesCall(p.source, site) && MatchesCall(p.sink, site) && !MatchesCall(p.guard, site)
    && forall dec :: !MatchesDecorator(p.guard, dec)
  }

  lemma OnlyItself(d: Snapshot, f: FQN, site: CallSite, g: FQN)
    requires OneCall(d, f, site)
    ensures CanReach(d, f, g) <==> g == f
  {
    ReachesSelf(CalleeMap(d), f);
    ClosureIsReachability(CalleeMap(d), f, g);
    ClosureInternal(d, f);
  }

  lemma OneViolates(d: Snapshot, p: Policy, f: FQN, site: CallSite)
    requires OneCall(d, f, site) && Fires(p, site)
    ensures WellFormed(d) && Violates(d, p, f) && Reported(d, p, f)
  {
    forall g ensures CanReach(d, f, g) <==> g == f {
      OnlyItself(d, f, site, g);
    }
    assert Bucket(d.calls, f) == [site] && site in [site];
    assert Evidence(d, p.source, f) && Evidence(d, p.sink, f) && !Guarded(d, p.guard, f);
  }

  lemma OnlySite(d: Snapshot, f: FQN, site: CallSite, s: CallSite)
    requires OneCall(d, f, site)
    ensures s in EffectiveCalls(d, f) <==> s == site
  {
    Gathered(d, d.calls, f, s);
    forall g ensures CanReach(d, f, g) <==> g == f {
      OnlyItself(d, f, site, g);
    }
    assert Bucket(d.calls, f) == [site];
  }

  lemma SinkIsTheCall(d: Snapshot, p: Policy, f: FQN, site: CallSite, finding: Finding)
    requires OneCall(d, f, site) && Fires(p, site) && IsFinding(d, p, f, finding)
    ensures finding.fix == RenderFix(p, Some(site))
  {
    var sites, fields := EffectiveCalls(d, f), EffectiveFields(d, f);
    OnlySite(d, f, site, site);
    var first := FirstCall(p.sink, sites);
    OnlySite(d, f, site, first.value);
    assert FirstMatchAny(p.sink, sites, fields) == Some(AtCall(site));
  }

  lemma OnlyExpected(d: Snapshot, p: Policy, f: FQN, site: CallSite, x: Finding)
    requires OneCall(d, f, site)
    ensures Expected(d, p, x) <==> Reported(d, p, f) && IsFinding(d, p, f, x)
  {
    assert Bucket(d.calls, "") == [] && Bucket(d.fields, "") == [];
    assert Bucket(d.suppressions, x.source.path) == [] && Bucket(d.suppressions, x.sink.path) == [];
  }

  lemma Singleton(d: Snapshot, p: Policy, finding: Finding)
    requires forall x :: Expected(d, p, x) <==> x == finding
    ensures IsAnalysis(d, p, [finding])
  {
  }

  /** The analysis has this one finding. */
  lemma OneFinding(d: Snapshot, p: Policy, f: FQN, site: CallSite) returns (finding: Finding)
    requires OneCall(d, f, site) && Fires(p, site)
    ensures IsFinding(d, p, f, finding) && IsAnalysis(d, p, [finding])
  {
    OneViolates(d, p, f, site);
    finding := FindingExists(d, p, f);
    forall x ensures Expected(d, p, x) <==> x == finding {
      OnlyOne(d, p, f, site, finding, x);
    }
    Singleton(d, p, finding);
  }

  lemma OnlyOne(d: Snapshot, p: Policy, f: FQN, site: CallSite, finding: Finding, x: Finding)
    requires OneCall(d, f, site) && Reported(d, p, f) && IsFinding(d, p, f, finding)
    ensures Expected(d, p, x) <==> x == finding
  {
    OnlyExpected(d, p, f, site, x);
    if IsFinding(d, p, f, x) {
      FindingUnique(d, p, f, x, finding);
    }
  }

  lemma TwoReports(d: Snapshot, p: Policy, q: Policy, a: Finding, b: Finding)
    requires IsAnalysis(d, p, [a]) && IsAnalysis(d, q, [b])
    ensures IsReport(d, [p, q], [a, b])
  {
    assert [p][..0] == [] && [a][..0] == [] && [a][0..] == [a];
    assert IsReport(d, [], []) && IsReport(d, [p], [a]);
    assert [p, q][..1] == [p] && [a, b][..1] == [a] && [a, b][1..] == [b];
  }

  /** A file with the one call `sink(x)`. */
  function SinkFile(): File {
    File("a.py", "sink(x)")
  }

  function SinkArgument(): Node {
    Node(Identifier, "x", 5, 6, Point(0, 5), Point(0, 6), [])
  }

  function SinkArguments(): Node {
    Node(ArgumentList, "(x)", 4, 7, Point(0, 4), Point(0, 7), [Child(NoField, SinkArgument())])
  }

  /** The call `sink(x)` as the parser gives it. */
  function SinkCall(): Node {
    Node(Call, "sink(x)", 0, 7, Point(0, 0), Point(0, 7), [Child(ArgumentsField, SinkArguments())])
  }

  /** A node with one child is located with all below it when both are. */
  lemma OneChildLocated(src: string, n: Node, child: Child)
    requires n.children == [child] && Located(src, n) && AllLocated(src, child.node)
    ensures AllLocated(src, n)
  {
  }

  lemma SinkLocated(src: string)
    requires |src| == 7 && '\n' !in src
    ensures AllLocated(src, SinkCall()) && Located(src, SinkArgument())
  {
    SinkPositions(src);
    assert AllLocated(src, SinkArgument());
    OneChildLocated(src, SinkArguments(), Child(NoField, SinkArgument()));
    OneChildLocated(src, SinkCall(), Child(ArgumentsField, SinkArguments()));
  }

  lemma SinkHasArgument()
    ensures FindArgumentList(SinkCall()) == Some(SinkArguments())
    ensures PositionalAt(SinkArguments(), 0) == Some(SinkArgument())
  {
    assert SinkArguments().children[1..] == [];
    assert SinkCall().ByField(ArgumentsField) == Some(SinkArguments());
  }

  lemma OneLine()
    ensures |SinkFile().source| == 7 && '\n' !in SinkFile().source
  {
  }

  lemma SinkPositions(src: string)
    requires |src| == 7 && '\n' !in src
    ensures forall k :: k in {0, 4, 5, 6, 7} ==> PointAt(src, k) == Point(0, k)
  {
    FirstRow(src, 0);
    FirstRow(src, 4);
    FirstRow(src, 5);
    FirstRow(src, 6);
    FirstRow(src, 7);
  }

  function SinkSite(): CallSite {
    CallSite("f", "sink", "sink", SinkFile(), Some(SinkCall()), 1)
  }

  lemma WrapExists(site: CallSite, args: Node, arg: Node, idx: int, guardCall: string)
    requires site.node.Some? && FindArgumentList(site.node.value) == Some(args) && PositionalAt(args, idx) == Some(arg)
    requires Located(site.file.source, arg) && arg.startByte < arg.endByte && '\n' !in site.file.source
    ensures
      var patch := BuildWrapPatch(site, idx, guardCall);
      patch.Some? && patch.value.path == site.file.path
  {
    PatchExistsIff(site.file, arg, guardCall);
  }

  lemma PatchIsThere(guardCall: string)
    ensures
      var patch := BuildWrapPatch(SinkSite(), 0, guardCall);
      patch.Some? && patch.value.path == SinkFile().path
  {
    OneLine();
    SinkLocated(SinkFile().source);
    SinkHasArgument();
    WrapExists(SinkSite(), SinkArguments(), SinkArgument(), 0, guardCall);
  }

  lemma FixHasPatch(guardCall: string)
    requires guardCall != ""
    ensures
      var fix := RenderFix(WrapPolicy(guardCall), Some(SinkSite()));
      fix.Some? && fix.value.patch.Some? && fix.value.patch.value.path == SinkFile().path
  {
    assert FirstGuardCall([Calls(guardCall)]) == guardCall;
    PatchIsThere(guardCall);
  }

  /** Whatever two plain guard names differ. */
  lemma TwoGuards(d: Snapshot, f: FQN, g: string, h: string) returns (a: Finding, b: Finding)
    requires OneCall(d, f, SinkSite()) && g != h && g != "" && h != ""
    requires Fires(WrapPolicy(g), SinkSite()) && Fires(WrapPolicy(h), SinkSite())
    ensures IsReport(d, [WrapPolicy(g), WrapPolicy(h)], [a, b])
    ensures AllPatched([a, b]) && !Agree(PatchesFor([a, b], SinkFile().path))
  {
    var p, q := WrapPolicy(g), WrapPolicy(h);
    a := OneFinding(d, p, f, SinkSite());
    b := OneFinding(d, q, f, SinkSite());
    TwoReports(d, p, q, a, b);
    SinkIsTheCall(d, p, f, SinkSite(), a);
    SinkIsTheCall(d, q, f, SinkSite(), b);
    FixHasPatch(g);
    FixHasPatch(h);
    CompetingPatches(d, p, q, f, a, b);
    assert FirstGuardCall([Calls(g)]) == g && FirstGuardCall([Calls(h)]) == h;
    NotAgreed(a, b);
  }

  lemma GraphOf(f: FQN, site: CallSite) returns (d: Snapshot)
    requires f != "" && f != MODULE_SCOPE && site.caller == f
    ensures OneCall(d, f, site)
  {
    d := Snapshot(map[f := FuncNode(f, site.file, 1, [], "")], map[f := [site]], map[], map[]);
  }

  lemma AllOnDisk(d: Snapshot, f: FQN, site: CallSite) returns (files: Files)
    requires OneCall(d, f, site) && (site.node.Some? ==> AllLocated(site.file.source, site.node.value))
    ensures OnDisk(files, d)
  {
    files := map[site.file.path := site.file.source];
    forall g, s | s in Bucket(d.calls, g) ensures SiteOnDisk(files, s) {
      assert s == site;
    }
  }

  /** A graph, two policies and the file on disk: the report holds two findings, each with a
      patch, and the patches do not agree. */
  lemma PatchIsLost() returns (files: Files, d: Snapshot, policies: seq<Policy>, all: seq<Finding>, path: string)
    ensures WellFormed(d) && OnDisk(files, d) && IsReport(d, policies, all)
    ensures AllPatched(all) && !Agree(PatchesFor(all, path))
  {
    path := SinkFile().path;
    assert "f" != MODULE_SCOPE by { assert |"f"| == 1 && |MODULE_SCOPE| == 8; }
    d := GraphOf("f", SinkSite());
    OneLine();
    SinkLocated(SinkFile().source);
    files := AllOnDisk(d, "f", SinkSite());
    BothFire(SinkSite());
    OneViolates(d, WrapPolicy("g"), "f", SinkSite());
    var a, b := TwoGuards(d, "f", "g", "h");
    policies, all := [WrapPolicy("g"), WrapPolicy("h")], [a, b];
  }

  lemma BothFire(site: CallSite)
    requires site.callee == "sink" && site.raw == "sink"
    ensures Fires(WrapPolicy("g"), site) && Fires(WrapPolicy("h"), site)
  {
    assert Calls("sink") in WrapPolicy("g").source.anyOf && Calls("sink") in WrapPolicy("h").source.anyOf;
    assert "sink"[2..][0] == 'n' && |"g"| == 1 && |"h"| == 1 && |WILDCARD| == 2;
  }

  lemma NotAgreed(a: Finding, b: Finding)
    requires PatchOf(a).Some? && PatchOf(b).Some?
    requires PatchOf(a).value.path == PatchOf(b).value.path && PatchOf(a).value.line == PatchOf(b).value.line
    requires PatchOf(a).value.newLine != PatchOf(b).value.newLine
    ensures AllPatched([a, b]) && !Agree(PatchesFor([a, b], PatchOf(a).value.path))
  {
    var patches := PatchesFor([a, b], PatchOf(a).value.path);
    assert a in [a, b] && b in [a, b];
    assert PatchOf(a).value in patches && PatchOf(b).value in patches;
  }
}
