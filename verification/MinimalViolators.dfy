/** What the result of the analysis means, over any graph, cyclic or not. */
module MinimalViolators {
  import opened Text
  import opened CallGraph
  import opened Policies
  import opened Matching
  import opened Autofix
  import opened Reachability
  import opened BreadthFirst
  import opened Sorting
  import opened Solver
  import opened Analysis

  // ---------------------------------------------------------------- determinism

  /** Two runs on the same graph return the same sequence. */
  lemma AnalysisUnique(d: Snapshot, p: Policy, a: seq<Finding>, b: seq<Finding>)
    requires IsAnalysis(d, p, a) && IsAnalysis(d, p, b)
    ensures a == b
  {
    ByNameUnique(a, b);
  }

  /** Findings in ascending order of name are determined by which ones they are. */
  lemma ByNameUnique(a: seq<Finding>, b: seq<Finding>)
    requires ByName(a) && ByName(b) && forall x :: x in a <==> x in b
    ensures a == b
  {
    NamesIncluded(a, b);
    NamesIncluded(b, a);
    AscendingUnique(NamesOf(a), NamesOf(b));
    assert |a| == |NamesOf(a)| == |NamesOf(b)| == |b|;
    forall i | 0 <= i < |a| ensures a[i] == b[i] {
      assert a[i] in b;
      var j :| 0 <= j < |b| && b[j] == a[i];
      assert b[j].fqn == NamesOf(a)[i] == NamesOf(b)[i] == b[i].fqn;
      LessIrreflexive(b[i].fqn);
      assert j == i;
    }
  }

  lemma NamesIncluded(a: seq<Finding>, b: seq<Finding>)
    requires forall f :: f in a ==> f in b
    ensures forall n :: n in NamesOf(a) ==> n in NamesOf(b)
  {
    forall n | n in NamesOf(a) ensures n in NamesOf(b) {
      var i :| 0 <= i < |a| && a[i].fqn == n;
      assert a[i] in b;
      var j :| 0 <= j < |b| && b[j] == a[i];
      assert NamesOf(b)[j] == n;
    }
  }

  ghost function NamesOf(findings: seq<Finding>): seq<FQN> {
    seq(|findings|, i requires 0 <= i < |findings| => findings[i].fqn)
  }

  // ---------------------------------------------------------------- coverage

  /** What a violator reaches is guard-free throughout, so it violates as soon as it
      reaches a source and a sink. */
  lemma GuardFreedomInherited(d: Snapshot, p: Policy, f: FQN, g: FQN)
    requires Violates(d, p, f) && CanReach(d, f, g)
    ensures Violates(d, p, g) <==>
      && (exists h :: CanReach(d, g, h) && Evidence(d, p.source, h))
      && (exists h :: CanReach(d, g, h) && Evidence(d, p.sink, h))
  {
    forall h | CanReach(d, g, h) ensures !Guarded(d, p.guard, h) {
      ReachesTransitive(CalleeMap(d), f, g, h);
    }
  }

  /** Every violator reaches a reported function. */
  lemma {:induction false} Coverage(d: Snapshot, p: Policy, f: FQN) returns (g: FQN)
    requires f in d.funcs && Violates(d, p, f)
    ensures CanReach(d, f, g) && Reported(d, p, g)
    decreases |Closure(CalleeMap(d), f)|
  {
    ReachesSelf(CalleeMap(d), f);
    if Reported(d, p, f) {
      return f;
    }
    var h :| CanReach(d, f, h) && Violates(d, p, h) && !CanReach(d, h, f);
    ClosureIsReachability(CalleeMap(d), f, h);
    ClosureInternal(d, f);
    SizeTest(CalleeMap(d), f, h);
    g := Coverage(d, p, h);
    ReachesTransitive(CalleeMap(d), f, h, g);
  }

  /** The result is empty exactly when no function violates. */
  lemma NothingReportedIff(d: Snapshot, p: Policy)
    ensures (forall f :: !Reported(d, p, f)) <==> (forall f :: f in d.funcs ==> !Violates(d, p, f))
  {
    if f :| f in d.funcs && Violates(d, p, f) {
      var g := Coverage(d, p, f);
    }
  }

  /** Every violator has a finding to show for it. */
  lemma FindingExists(d: Snapshot, p: Policy, f: FQN) returns (finding: Finding)
    requires WellFormed(d) && f in d.funcs && Violates(d, p, f)
    ensures IsFinding(d, p, f, finding)
  {
    VerdictIff(d, p, f);
    CarrierReachable(d, p.source, f);
    CarrierReachable(d, p.sink, f);
    var verdict := Verdict(d, p, f).value;
    var sourceChain := CounterexampleExists(d, f, verdict.source.carrier);
    var sinkChain := CounterexampleExists(d, f, verdict.sink.carrier);
    finding := Finding(p.id, p.severity, p.message, f, verdict.source.site, verdict.sink.site,
                       sourceChain, sinkChain, RenderFix(p, verdict.sink.call));
  }

  lemma CounterexampleExists(d: Snapshot, src: FQN, dst: FQN) returns (hops: seq<ChainHop>)
    requires CanReach(d, src, dst)
    ensures Counterexample(d, src, dst, hops)
  {
    var path := FirstChainExists(CalleeMap(d), src, dst);
    forall i | 0 <= i < |path| - 1 ensures FirstSite(Bucket(d.calls, path[i]), path[i + 1]).Some? {
      EdgeIsCall(d, path[i], path[i + 1]);
    }
    hops := seq(|path|, i requires 0 <= i < |path| => HopOn(d, path, i));
    assert HopNames(hops) == path;
  }

  ghost function HopOn(d: Snapshot, path: seq<FQN>, i: nat): ChainHop
    requires i < |path|
  {
    var site := if i + 1 < |path| then FirstSite(Bucket(d.calls, path[i]), path[i + 1]) else None;
    if site.Some? then ChainHop(path[i], site.value.file.path, site.value.line) else ChainHop(path[i], "", 0)
  }

  /** End to end: for every violator the analysis returns a finding at a function it
      reaches, unless an annotation covers that finding's source or sink. */
  lemma AnalyzeCovers(d: Snapshot, p: Policy, findings: seq<Finding>, f: FQN) returns (lowest: Finding)
    requires WellFormed(d) && IsAnalysis(d, p, findings)
    requires f in d.funcs && Violates(d, p, f)
    ensures CanReach(d, f, lowest.fqn) && Reported(d, p, lowest.fqn) && IsFinding(d, p, lowest.fqn, lowest)
    ensures lowest in findings <==> !IsSuppressed(d, p, lowest)
  {
    var g := Coverage(d, p, f);
    lowest := FindingExists(d, p, g);
    assert Expected(d, p, lowest) <==> !IsSuppressed(d, p, lowest);
  }

  // ---------------------------------------------------------------- which functions are reported

  /** A reported function reaches another one only when the two call each other. */
  lemma ReportedReachOnlyMutually(d: Snapshot, p: Policy, f: FQN, g: FQN)
    requires Reported(d, p, f) && Reported(d, p, g) && CanReach(d, f, g)
    ensures CanReach(d, g, f) && Closure(CalleeMap(d), f) == Closure(CalleeMap(d), g)
  {
    ClosureShrinks(CalleeMap(d), f, g);
    ClosureShrinks(CalleeMap(d), g, f);
  }

  /** A reported function is a lowest point: below it, with a smaller closure, either no
      source or no sink is in reach. */
  lemma LowestPoint(d: Snapshot, p: Policy, f: FQN, g: FQN)
    requires Reported(d, p, f) && g in Closure(CalleeMap(d), f)
    requires |Closure(CalleeMap(d), g)| < |Closure(CalleeMap(d), f)|
    ensures || (forall h :: CanReach(d, g, h) ==> !Evidence(d, p.source, h))
            || (forall h :: CanReach(d, g, h) ==> !Evidence(d, p.sink, h))
  {
    SizeTest(CalleeMap(d), f, g);
    ClosureIsReachability(CalleeMap(d), f, g);
    GuardFreedomInherited(d, p, f, g);
  }

  /** Mutually recursive functions share verdict, sites and fate. */
  lemma MutualRecursionAlike(d: Snapshot, p: Policy, f: FQN, g: FQN)
    requires CanReach(d, f, g) && CanReach(d, g, f)
    ensures Closure(CalleeMap(d), f) == Closure(CalleeMap(d), g)
    ensures Verdict(d, p, f) == Verdict(d, p, g)
    ensures Violates(d, p, f) <==> Violates(d, p, g)
    ensures f in d.funcs && g in d.funcs ==> (Reported(d, p, f) <==> Reported(d, p, g))
  {
    var m := CalleeMap(d);
    ClosureShrinks(m, f, g);
    ClosureShrinks(m, g, f);
    forall h ensures CanReach(d, f, h) <==> CanReach(d, g, h) {
      ClosureIsReachability(m, f, h);
      ClosureIsReachability(m, g, h);
    }
    forall h ensures CanReach(d, h, f) <==> CanReach(d, h, g) {
      if CanReach(d, h, f) {
        ReachesTransitive(m, h, f, g);
      }
      if CanReach(d, h, g) {
        ReachesTransitive(m, h, g, f);
      }
    }
  }

  /** When f reaches g and both violate, f is reported too exactly when g calls back to f
      and is reported itself. */
  lemma CallerReportedIff(d: Snapshot, p: Policy, f: FQN, g: FQN)
    requires f in d.funcs && CanReach(d, f, g) && Violates(d, p, f) && Violates(d, p, g)
    ensures Reported(d, p, f) <==> CanReach(d, g, f) && Reported(d, p, g)
  {
    var m := CalleeMap(d);
    ClosureInternal(d, f);
    ClosureIsReachability(m, f, g);
    if Reported(d, p, f) || CanReach(d, g, f) {
      MutualRecursionAlike(d, p, f, g);
    }
  }

  /** Their findings name the same source and sink sites and the same level and patch. */
  lemma MutualRecursionSameSites(d: Snapshot, p: Policy, f: FQN, g: FQN, a: Finding, b: Finding)
    requires CanReach(d, f, g) && CanReach(d, g, f)
    requires IsFinding(d, p, f, a) && IsFinding(d, p, g, b)
    ensures a.source == b.source && a.sink == b.sink && a.fix == b.fix
  {
    MutualRecursionAlike(d, p, f, g);
  }

  // ---------------------------------------------------------------- counterexamples

  /** The body of `f` holds the entry that `site` names, and it matches. */
  ghost predicate HeldBy(d: Snapshot, m: Matcher, f: FQN, site: FindingSite) {
    || (exists s :: s in Bucket(d.calls, f) && MatchesCall(m, s) && site == FindingSite(s.callee, s.file.path, s.line))
    || (exists a :: a in Bucket(d.fields, f) && MatchesField(m, a) && site == FindingSite(a.path, a.file.path, a.line))
  }

  /** A chain of distinct functions from `f` to the one whose body holds `site`. */
  ghost predicate Witnesses(d: Snapshot, m: Matcher, f: FQN, site: FindingSite, hops: seq<ChainHop>) {
    && hops != [] && hops[0].fqn == f
    && Distinct(HopNames(hops)) && Annotated(d, hops)
    && HeldBy(d, m, hops[|hops| - 1].fqn, site)
  }

  /** Both chains of every finding are genuine. */
  lemma FindingsAreGenuine(d: Snapshot, p: Policy, f: FQN, finding: Finding)
    requires WellFormed(d) && f in d.funcs && IsFinding(d, p, f, finding)
    ensures Witnesses(d, p.source, f, finding.source, finding.sourceChain)
    ensures Witnesses(d, p.sink, f, finding.sink, finding.sinkChain)
  {
    var verdict := Verdict(d, p, f).value;
    ChainWitnesses(d, p.source, f, verdict.source, finding.sourceChain);
    ChainWitnesses(d, p.sink, f, verdict.sink, finding.sinkChain);
  }

  lemma ChainWitnesses(d: Snapshot, m: Matcher, f: FQN, hit: Hit, hops: seq<ChainHop>)
    requires WellFormed(d) && f in d.funcs
    requires FirstMatchAny(m, EffectiveCalls(d, f), EffectiveFields(d, f)) == Some(hit)
    requires Counterexample(d, f, hit.carrier, hops)
    ensures Witnesses(d, m, f, hit.site, hops)
  {
    FirstChainSimple(CalleeMap(d), f, hit.carrier, HopNames(hops));
    assert HopNames(hops)[0] == hops[0].fqn && HopNames(hops)[|hops| - 1] == hops[|hops| - 1].fqn;
    HitHeld(d, m, f, hit);
  }

  lemma HitHeld(d: Snapshot, m: Matcher, f: FQN, hit: Hit)
    requires WellFormed(d) && f in d.funcs
    requires FirstMatchAny(m, EffectiveCalls(d, f), EffectiveFields(d, f)) == Some(hit)
    ensures HeldBy(d, m, hit.carrier, hit.site)
  {
    var sites, fields := EffectiveCalls(d, f), EffectiveFields(d, f);
    var call := FirstCall(m, sites);
    if call.Some? {
      Gathered(d, d.calls, f, call.value);
    } else {
      Gathered(d, d.fields, f, FirstField(m, fields).value);
    }
  }
}
