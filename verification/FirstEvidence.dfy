/** Which evidence a finding reports, and which chain, stated on the graph alone: the first
    matching call of the reachable function whose name comes first, and the shortest chain
    whose calls come first in the bodies. */
module FirstEvidence {
  import opened Text
  import opened CallGraph
  import opened Policies
  import opened Matching
  import opened Autofix
  import opened Reachability
  import opened BreadthFirst
  import opened Sorting
  import opened Solver
  import opened Analysis

  // ---------------------------------------------------------------- the order of the evidence

  /** Entry `i` of the collected evidence is entry `k` of the bucket of the `j`-th name; what
      stands before it in that bucket, and every bucket of an earlier name, is collected
      before it. */
  ghost predicate StandsAt<T(!new)>(buckets: map<FQN, seq<T>>, closure: set<FQN>, names: seq<FQN>,
                                    i: nat, j: nat, k: nat)
  {
    var out := Gather(buckets, closure, names);
    && i < |out| && j < |names| && names[j] in closure && k < |Bucket(buckets, names[j])|
    && out[i] == Bucket(buckets, names[j])[k]
    && (forall x :: x in Bucket(buckets, names[j])[..k] ==> x in out[..i])
    && forall l, x :: 0 <= l < j && names[l] in closure && x in Bucket(buckets, names[l]) ==> x in out[..i]
  }

  lemma {:induction false} PlaceOf<T(!new)>(buckets: map<FQN, seq<T>>, closure: set<FQN>, names: seq<FQN>, i: nat)
    returns (j: nat, k: nat)
    requires i < |Gather(buckets, closure, names)|
    ensures StandsAt(buckets, closure, names, i, j, k)
  {
    var n := |names| - 1;
    var before, out := Gather(buckets, closure, names[..n]), Gather(buckets, closure, names);
    assert before <= out;
    if i < |before| {
      j, k := PlaceOf(buckets, closure, names[..n], i);
      assert out[..i] == before[..i];
      forall l | 0 <= l < j ensures names[l] == names[..n][l] {
      }
    } else {
      j, k := n, i - |before|;
      var last := Bucket(buckets, names[n]);
      assert out[..i] == before + last[..k];
      forall l, x | 0 <= l < j && names[l] in closure && x in Bucket(buckets, names[l]) ensures x in out[..i] {
        assert names[l] in names[..n];
        assert x in before;
      }
    }
  }

  // ---------------------------------------------------------------- the first match

  /** No call in the body of `g` matches, no read. */
  ghost predicate NoCall(d: Snapshot, m: Matcher, g: FQN) {
    forall s :: s in Bucket(d.calls, g) ==> !MatchesCall(m, s)
  }

  ghost predicate NoRead(d: Snapshot, m: Matcher, g: FQN) {
    forall a :: a in Bucket(d.fields, g) ==> !MatchesField(m, a)
  }

  ghost predicate FirstMatchingCall(m: Matcher, sites: seq<CallSite>, s: CallSite) {
    exists k :: 0 <= k < |sites| && sites[k] == s && MatchesCall(m, s)
                && forall l :: 0 <= l < k ==> !MatchesCall(m, sites[l])
  }

  ghost predicate FirstMatchingRead(m: Matcher, fields: seq<FieldAccess>, a: FieldAccess) {
    exists k :: 0 <= k < |fields| && fields[k] == a && MatchesField(m, a)
                && forall l :: 0 <= l < k ==> !MatchesField(m, fields[l])
  }

  /** `s` is the first matching call of `g`, and no function that `f` reaches and whose name
      comes before that of `g` holds a matching call. */
  ghost predicate CallOfFirst(d: Snapshot, m: Matcher, f: FQN, g: FQN, s: CallSite) {
    && CanReach(d, f, g) && FirstMatchingCall(m, Bucket(d.calls, g), s)
    && forall h :: CanReach(d, f, h) && Less(h, g) ==> NoCall(d, m, h)
  }

  /** The same for a read, when no function that `f` reaches holds a matching call. */
  ghost predicate ReadOfFirst(d: Snapshot, m: Matcher, f: FQN, g: FQN, a: FieldAccess) {
    && CanReach(d, f, g) && FirstMatchingRead(m, Bucket(d.fields, g), a)
    && (forall h :: CanReach(d, f, h) ==> NoCall(d, m, h))
    && forall h :: CanReach(d, f, h) && Less(h, g) ==> NoRead(d, m, h)
  }

  /** What is reported of the first evidence, and the function that holds it. */
  ghost predicate FirstHit(d: Snapshot, m: Matcher, f: FQN, hit: Hit) {
    if hit.call.Some? then
      var s := hit.call.value;
      CallOfFirst(d, m, f, hit.carrier, s) && hit.site == FindingSite(s.callee, s.file.path, s.line)
    else
      exists a :: ReadOfFirst(d, m, f, hit.carrier, a) && hit.site == FindingSite(a.path, a.file.path, a.line)
  }

  lemma ReachableIsNamed(d: Snapshot, f: FQN, g: FQN)
    requires f in d.funcs && CanReach(d, f, g)
    ensures g in SortedNames(d.funcs.Keys) && g in Closure(CalleeMap(d), f)
  {
    ClosureInternal(d, f);
    ClosureIsReachability(CalleeMap(d), f, g);
  }

  /** Whatever a function before the `j`-th name holds is collected before entry `i`. */
  lemma EarlierName<T(!new)>(d: Snapshot, buckets: map<FQN, seq<T>>, f: FQN, i: nat, j: nat, k: nat, h: FQN, x: T)
    requires f in d.funcs
    requires StandsAt(buckets, Closure(CalleeMap(d), f), SortedNames(d.funcs.Keys), i, j, k)
    requires CanReach(d, f, h) && Less(h, SortedNames(d.funcs.Keys)[j]) && x in Bucket(buckets, h)
    ensures x in Gather(buckets, Closure(CalleeMap(d), f), SortedNames(d.funcs.Keys))[..i]
  {
    var names := SortedNames(d.funcs.Keys);
    ReachableIsNamed(d, f, h);
    var l :| 0 <= l < |names| && names[l] == h;
    LessIrreflexive(h);
    if j < l {
      LessAsymmetric(h, names[j]);
    }
  }

  lemma CollectedCallIsFirst(d: Snapshot, m: Matcher, f: FQN, s: CallSite)
    requires WellFormed(d) && f in d.funcs && FirstCall(m, EffectiveCalls(d, f)) == Some(s)
    ensures CallOfFirst(d, m, f, s.caller, s)
  {
    var names, closure, out := SortedNames(d.funcs.Keys), Closure(CalleeMap(d), f), EffectiveCalls(d, f);
    var i: nat :| i < |out| && out[i] == s && MatchesCall(m, s) && forall l :: 0 <= l < i ==> !MatchesCall(m, out[l]);
    var j, k := PlaceOf(d.calls, closure, names, i);
    var g := names[j];
    ClosureIsReachability(CalleeMap(d), f, g);
    var bucket := Bucket(d.calls, g);
    assert s in bucket && s.caller == g;
    forall l | 0 <= l < k ensures !MatchesCall(m, bucket[l]) {
      assert bucket[l] in bucket[..k];
    }
    assert FirstMatchingCall(m, bucket, s);
    forall h, x | CanReach(d, f, h) && Less(h, g) && x in Bucket(d.calls, h) ensures !MatchesCall(m, x) {
      EarlierName(d, d.calls, f, i, j, k, h, x);
    }
  }

  lemma CollectedReadIsFirst(d: Snapshot, m: Matcher, f: FQN, a: FieldAccess)
    requires WellFormed(d) && f in d.funcs && FirstField(m, EffectiveFields(d, f)) == Some(a)
    requires forall h :: CanReach(d, f, h) ==> NoCall(d, m, h)
    ensures ReadOfFirst(d, m, f, a.caller, a)
  {
    var names, closure, out := SortedNames(d.funcs.Keys), Closure(CalleeMap(d), f), EffectiveFields(d, f);
    var i: nat :| i < |out| && out[i] == a && MatchesField(m, a) && forall l :: 0 <= l < i ==> !MatchesField(m, out[l]);
    var j, k := PlaceOf(d.fields, closure, names, i);
    var g := names[j];
    ClosureIsReachability(CalleeMap(d), f, g);
    var bucket := Bucket(d.fields, g);
    assert a in bucket && a.caller == g;
    forall l | 0 <= l < k ensures !MatchesField(m, bucket[l]) {
      assert bucket[l] in bucket[..k];
    }
    assert FirstMatchingRead(m, bucket, a);
    forall h, x | CanReach(d, f, h) && Less(h, g) && x in Bucket(d.fields, h) ensures !MatchesField(m, x) {
      EarlierName(d, d.fields, f, i, j, k, h, x);
    }
  }

  lemma NoReachableCall(d: Snapshot, m: Matcher, f: FQN)
    requires f in d.funcs && FirstCall(m, EffectiveCalls(d, f)).None?
    ensures forall h :: CanReach(d, f, h) ==> NoCall(d, m, h)
  {
    forall h, s | CanReach(d, f, h) && s in Bucket(d.calls, h) ensures !MatchesCall(m, s) {
      Gathered(d, d.calls, f, s);
    }
  }

  /** The search over the collected evidence finds the first hit. */
  lemma SearchFindsFirst(d: Snapshot, m: Matcher, f: FQN, hit: Hit)
    requires WellFormed(d) && f in d.funcs
    requires FirstMatchAny(m, EffectiveCalls(d, f), EffectiveFields(d, f)) == Some(hit)
    ensures FirstHit(d, m, f, hit)
  {
    var call := FirstCall(m, EffectiveCalls(d, f));
    if call.Some? {
      CollectedCallIsFirst(d, m, f, call.value);
    } else {
      NoReachableCall(d, m, f);
      CollectedReadIsFirst(d, m, f, FirstField(m, EffectiveFields(d, f)).value);
    }
  }

  lemma FirstCallUnique(d: Snapshot, m: Matcher, f: FQN, g: FQN, s: CallSite, h: FQN, t: CallSite)
    requires CallOfFirst(d, m, f, g, s) && CallOfFirst(d, m, f, h, t)
    ensures g == h && s == t
  {
    LessTotal(g, h);
    assert s in Bucket(d.calls, g) && t in Bucket(d.calls, h);
  }

  lemma FirstReadUnique(d: Snapshot, m: Matcher, f: FQN, g: FQN, a: FieldAccess, h: FQN, b: FieldAccess)
    requires ReadOfFirst(d, m, f, g, a) && ReadOfFirst(d, m, f, h, b)
    ensures g == h && a == b
  {
    LessTotal(g, h);
    assert a in Bucket(d.fields, g) && b in Bucket(d.fields, h);
  }

  lemma FirstHitUnique(d: Snapshot, m: Matcher, f: FQN, x: Hit, y: Hit)
    requires FirstHit(d, m, f, x) && FirstHit(d, m, f, y)
    ensures x == y
  {
    if x.call.Some? && y.call.Some? {
      FirstCallUnique(d, m, f, x.carrier, x.call.value, y.carrier, y.call.value);
    } else if x.call.None? && y.call.None? {
      var a :| ReadOfFirst(d, m, f, x.carrier, a) && x.site == FindingSite(a.path, a.file.path, a.line);
      var b :| ReadOfFirst(d, m, f, y.carrier, b) && y.site == FindingSite(b.path, b.file.path, b.line);
      FirstReadUnique(d, m, f, x.carrier, a, y.carrier, b);
    } else {
      assert false;
    }
  }

  /** Some hit is first as soon as there is evidence. */
  lemma SearchIff(d: Snapshot, m: Matcher, f: FQN, hit: Hit)
    requires WellFormed(d) && f in d.funcs
    ensures FirstMatchAny(m, EffectiveCalls(d, f), EffectiveFields(d, f)) == Some(hit) <==> FirstHit(d, m, f, hit)
  {
    var found := FirstMatchAny(m, EffectiveCalls(d, f), EffectiveFields(d, f));
    if found.Some? {
      SearchFindsFirst(d, m, f, found.value);
      if FirstHit(d, m, f, hit) {
        FirstHitUnique(d, m, f, hit, found.value);
      }
    } else if FirstHit(d, m, f, hit) {
      FirstHitIsEvidence(d, m, f, hit);
      HitIff(d, m, f);
    }
  }

  lemma FirstHitIsEvidence(d: Snapshot, m: Matcher, f: FQN, hit: Hit)
    requires FirstHit(d, m, f, hit)
    ensures CanReach(d, f, hit.carrier) && Evidence(d, m, hit.carrier)
  {
    if hit.call.Some? {
      assert hit.call.value in Bucket(d.calls, hit.carrier);
    } else {
      var a :| ReadOfFirst(d, m, f, hit.carrier, a);
      assert a in Bucket(d.fields, hit.carrier);
    }
  }

  // ---------------------------------------------------------------- what a finding says

  /** The finding names these hits, with genuine chains to the functions that hold them. */
  ghost predicate Reports(d: Snapshot, p: Policy, f: FQN, finding: Finding, source: Hit, sink: Hit) {
    && FirstHit(d, p.source, f, source) && FirstHit(d, p.sink, f, sink)
    && finding.policyID == p.id && finding.severity == p.severity && finding.message == p.message
    && finding.fqn == f && finding.source == source.site && finding.sink == sink.site
    && Counterexample(d, f, source.carrier, finding.sourceChain)
    && Counterexample(d, f, sink.carrier, finding.sinkChain)
    && finding.fix == RenderFix(p, sink.call)
  }

  /** A finding, complete: there is one exactly for a violator, and it reports the first
      source and the first sink in reach. */
  lemma FindingIff(d: Snapshot, p: Policy, f: FQN, finding: Finding)
    requires WellFormed(d) && f in d.funcs
    ensures IsFinding(d, p, f, finding)
       <==> Violates(d, p, f) && exists source, sink :: Reports(d, p, f, finding, source, sink)
  {
    VerdictIff(d, p, f);
    if Verdict(d, p, f).Some? {
      var verdict := Verdict(d, p, f).value;
      SearchIff(d, p.source, f, verdict.source);
      SearchIff(d, p.sink, f, verdict.sink);
      if IsFinding(d, p, f, finding) {
        assert Reports(d, p, f, finding, verdict.source, verdict.sink);
      }
      if source, sink :| Reports(d, p, f, finding, source, sink) {
        FirstHitUnique(d, p.source, f, source, verdict.source);
        FirstHitUnique(d, p.sink, f, sink, verdict.sink);
      }
    }
  }

  /** The result of the analysis at functions, without naming how the evidence is searched. */
  lemma AnalysisReports(d: Snapshot, p: Policy, findings: seq<Finding>, x: Finding)
    requires WellFormed(d) && IsAnalysis(d, p, findings) && x.fqn != MODULE_SCOPE
    ensures x in findings
       <==> && Reported(d, p, x.fqn) && (exists source, sink :: Reports(d, p, x.fqn, x, source, sink))
            && !d.Suppresses(x.source.path, x.source.line, p.id) && !d.Suppresses(x.sink.path, x.sink.line, p.id)
  {
    if x.fqn in d.funcs {
      FindingIff(d, p, x.fqn, x);
    }
    assert x in findings <==> Expected(d, p, x);
  }

  /** The first matching call at module scope or, without one, the first matching read. */
  ghost predicate ModuleHit(d: Snapshot, m: Matcher, site: FindingSite, call: Option<CallSite>) {
    if call.Some? then
      var s := call.value;
      FirstMatchingCall(m, Bucket(d.calls, ""), s) && site == FindingSite(s.callee, s.file.path, s.line)
    else
      && NoCall(d, m, "")
      && exists a :: FirstMatchingRead(m, Bucket(d.fields, ""), a) && site == FindingSite(a.path, a.file.path, a.line)
  }

  lemma ModuleSearch(d: Snapshot, m: Matcher, site: FindingSite, call: Option<CallSite>)
    ensures
      var hit := FirstMatchAny(m, Bucket(d.calls, ""), Bucket(d.fields, ""));
      ModuleHit(d, m, site, call) <==> hit.Some? && hit.value.site == site && hit.value.call == call
  {
    var sites, fields := Bucket(d.calls, ""), Bucket(d.fields, "");
    FirstCallIs(m, sites);
    FirstReadIs(m, fields);
  }

  lemma FirstCallIs(m: Matcher, sites: seq<CallSite>)
    ensures forall s :: FirstMatchingCall(m, sites, s) <==> FirstCall(m, sites) == Some(s)
    ensures FirstCall(m, sites).None? <==> forall s :: s in sites ==> !MatchesCall(m, s)
  {
    forall s | FirstMatchingCall(m, sites, s) ensures FirstCall(m, sites) == Some(s) {
      assert s in sites;
    }
  }

  lemma FirstReadIs(m: Matcher, fields: seq<FieldAccess>)
    ensures forall a :: FirstMatchingRead(m, fields, a) <==> FirstField(m, fields) == Some(a)
  {
    forall a | FirstMatchingRead(m, fields, a) ensures FirstField(m, fields) == Some(a) {
      assert a in fields;
    }
  }

  /** `x` is the finding at module scope for this sink call. */
  ghost predicate ModuleFinding(p: Policy, x: Finding, call: Option<CallSite>) {
    x == Finding(p.id, p.severity, p.message, MODULE_SCOPE, x.source, x.sink, [], [], RenderFix(p, call))
  }

  /** What is reported at module scope: without a guard there, its first source and sink. */
  lemma ModuleFindingIff(d: Snapshot, p: Policy, x: Finding)
    ensures IsModuleFinding(d, p, x)
       <==> && !Evidence(d, p.guard, "")
            && (exists call :: ModuleHit(d, p.source, x.source, call))
            && exists call :: ModuleHit(d, p.sink, x.sink, call) && ModuleFinding(p, x, call)
  {
    ModuleEvidence(d, p, x);
    if IsModuleFinding(d, p, x) {
      var sites, fields := Bucket(d.calls, ""), Bucket(d.fields, "");
      ModuleSearch(d, p.source, x.source, FirstMatchAny(p.source, sites, fields).value.call);
      ModuleSearch(d, p.sink, x.sink, FirstMatchAny(p.sink, sites, fields).value.call);
    }
    if from, to :| ModuleHit(d, p.source, x.source, from) && ModuleHit(d, p.sink, x.sink, to)
                   && ModuleFinding(p, x, to) {
      ModuleSearch(d, p.source, x.source, from);
      ModuleSearch(d, p.sink, x.sink, to);
    }
  }

  lemma ModuleEvidence(d: Snapshot, p: Policy, x: Finding)
    ensures
      var source := FirstMatchAny(p.source, Bucket(d.calls, ""), Bucket(d.fields, ""));
      var sink := FirstMatchAny(p.sink, Bucket(d.calls, ""), Bucket(d.fields, ""));
      IsModuleFinding(d, p, x)
      <==> && !Evidence(d, p.guard, "") && source.Some? && sink.Some?
           && x.source == source.value.site && x.sink == sink.value.site && ModuleFinding(p, x, sink.value.call)
  {
    ModuleGuard(d, p.guard);
  }

  lemma ModuleGuard(d: Snapshot, m: Matcher)
    ensures Evidence(d, m, "") <==> GuardSatisfied(m, Bucket(d.calls, ""), Bucket(d.fields, ""), [])
  {
  }

  // ---------------------------------------------------------------- the order of the chains

  /** Chains `q` and `p` part at position `at`, where `q` takes the call that comes first. */
  ghost predicate PartsEarlier(d: Snapshot, q: seq<FQN>, p: seq<FQN>, at: nat) {
    && at + 1 < |q| && at + 1 < |p| && q[..at + 1] == p[..at + 1]
    && CalledBefore(Bucket(d.calls, p[at]), q[at + 1], p[at + 1])
  }

  lemma CallOrderIsListOrder(d: Snapshot, f: FQN, a: FQN, b: FQN)
    requires Edge(CalleeMap(d), f, a) && Edge(CalleeMap(d), f, b)
    ensures
      var list := Bucket(CalleeMap(d), f);
      IndexOf(list, a) < IndexOf(list, b) <==> CalledBefore(Bucket(d.calls, f), a, b)
  {
    var list, sites := Bucket(CalleeMap(d), f), Bucket(d.calls, f);
    assert list == InternalCallees(d.funcs.Keys, sites);
    var i, j := IndexOf(list, a), IndexOf(list, b);
    if i < j {
      CalleesInCallOrder(d.funcs.Keys, sites, i, j);
    } else if j < i {
      CalleesInCallOrder(d.funcs.Keys, sites, j, i);
      NotBothBefore(sites, a, b);
    }
  }

  lemma NotBothBefore(sites: seq<CallSite>, a: FQN, b: FQN)
    requires CalledBefore(sites, b, a)
    ensures !CalledBefore(sites, a, b)
  {
  }

  /** The chain of a counterexample: shortest, and no other shortest chain parts from it by a
      call that comes earlier in the body. */
  lemma FirstChainByCalls(d: Snapshot, src: FQN, dst: FQN, p: seq<FQN>)
    ensures FirstChain(CalleeMap(d), src, dst, p)
       <==> && Chain(CalleeMap(d), src, dst, p)
            && forall q :: Chain(CalleeMap(d), src, dst, q) ==>
                 |p| <= |q| && (|q| == |p| ==> forall at: nat :: !PartsEarlier(d, q, p, at))
  {
    if Chain(CalleeMap(d), src, dst, p) {
      forall q, at: nat | Chain(CalleeMap(d), src, dst, q)
        ensures Diverges(CalleeMap(d), q, p, at) <==> PartsEarlier(d, q, p, at)
      {
        PartingIff(d, src, dst, q, p, at);
      }
      forall q | Chain(CalleeMap(d), src, dst, q)
        ensures Before(CalleeMap(d), q, p) <==> exists at: nat :: PartsEarlier(d, q, p, at)
      {
      }
    }
  }

  lemma PartingIff(d: Snapshot, src: FQN, dst: FQN, q: seq<FQN>, p: seq<FQN>, at: nat)
    requires Chain(CalleeMap(d), src, dst, p) && Chain(CalleeMap(d), src, dst, q)
    ensures Diverges(CalleeMap(d), q, p, at) <==> PartsEarlier(d, q, p, at)
  {
    if at + 1 < |q| && at + 1 < |p| && q[..at + 1] == p[..at + 1] {
      assert q[at] == q[..at + 1][at] == p[at];
      assert Edge(CalleeMap(d), p[at], p[at + 1]) && Edge(CalleeMap(d), q[at], q[at + 1]);
      CallOrderIsListOrder(d, p[at], q[at + 1], p[at + 1]);
    }
  }
}
