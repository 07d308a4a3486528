/** The reachability solver: for every function the verdict over its closure, a pair
    of counterexample chains, and the reduction to minimal violators. */
module Solver {
  import opened Text
  import opened CallGraph
  import opened Policies
  import opened Matching
  import opened Autofix
  import opened Reachability
  import opened BreadthFirst
  import opened Sorting

  /** One hop: where this function calls the next one; empty for the last. */
  datatype ChainHop = ChainHop(fqn: FQN, path: string, line: int)

  datatype Finding = Finding(
    policyID: string, severity: Severity, message: string, fqn: FQN,
    source: FindingSite, sink: FindingSite,
    sourceChain: seq<ChainHop>, sinkChain: seq<ChainHop>, fix: Option<FindingFix>)

  const MODULE_SCOPE := "<module>"

  /** What the extractors guarantee: entries sit under their own key, and neither the
      empty name nor the module marker is a function. */
  ghost predicate WellFormed(d: Snapshot) {
    d.KeysAgree() && "" !in d.funcs && MODULE_SCOPE !in d.funcs
  }

  // ---------------------------------------------------------------- callee and bridge maps

  /** First site with the given callee. */
  function FirstSite(sites: seq<CallSite>, callee: FQN): (site: Option<CallSite>)
    ensures site.Some? ==> exists i :: 0 <= i < |sites| && sites[i] == site.value && sites[i].callee == callee
                                    && forall k :: 0 <= k < i ==> sites[k].callee != callee
    ensures site.None? ==> forall s :: s in sites ==> s.callee != callee
  {
    if sites == [] then None
    else if sites[0].callee == callee then Some(sites[0])
    else FirstSite(sites[1..], callee)
  }

  /** Internal callees in the order they are first called, each once. */
  function InternalCallees(funcs: set<FQN>, sites: seq<CallSite>): (cs: seq<FQN>)
    ensures Distinct(cs)
    ensures forall c :: c in cs <==> c in funcs && exists s :: s in sites && s.callee == c
  {
    if sites == [] then []
    else
      var n := |sites| - 1;
      var cs, c := InternalCallees(funcs, sites[..n]), sites[n].callee;
      assert sites == sites[..n] + [sites[n]];
      if c in funcs && c !in cs then cs + [c] else cs
  }

  /** Some call of `a` comes before every call of `b`. */
  ghost predicate CalledBefore(sites: seq<CallSite>, a: FQN, b: FQN) {
    exists i :: 0 <= i < |sites| && sites[i].callee == a && forall k :: 0 <= k <= i ==> sites[k].callee != b
  }

  /** The list is in the order of the first calls. */
  lemma {:induction false} CalleesInCallOrder(funcs: set<FQN>, sites: seq<CallSite>, a: nat, b: nat)
    requires a < b < |InternalCallees(funcs, sites)|
    ensures CalledBefore(sites, InternalCallees(funcs, sites)[a], InternalCallees(funcs, sites)[b])
  {
    var n := |sites| - 1;
    var cs := InternalCallees(funcs, sites[..n]);
    if b < |cs| {
      CalleesInCallOrder(funcs, sites[..n], a, b);
      var i :| 0 <= i < n && sites[..n][i].callee == cs[a] && forall k :: 0 <= k <= i ==> sites[..n][k].callee != cs[b];
      assert forall k :: 0 <= k <= i ==> sites[k] == sites[..n][k];
    } else {
      assert cs[a] in cs && sites[n].callee !in cs && sites[n].callee in funcs;
      var s :| s in sites[..n] && s.callee == cs[a];
      var i :| 0 <= i < n && sites[..n][i] == s;
      forall k | 0 <= k <= i ensures sites[k].callee != sites[n].callee {
        assert sites[..n][k] == sites[k] && sites[k] in sites[..n];
      }
      assert sites[i].callee == cs[a];
    }
  }

  ghost function CalleeMap(d: Snapshot): Callees {
    map f | f in d.calls && f != "" && InternalCallees(d.funcs.Keys, d.calls[f]) != []
      :: InternalCallees(d.funcs.Keys, d.calls[f])
  }

  /** An edge of the callee map is a call, outside module scope, of a registered function. */
  lemma EdgeIsCall(d: Snapshot, f: FQN, c: FQN)
    ensures Edge(CalleeMap(d), f, c) <==> f != "" && c in d.funcs && FirstSite(Bucket(d.calls, f), c).Some?
  {
  }

  /** For every iteration order of the map, the same callee lists. */
  method BuildCalleeMap(g: Graph) returns (callees: Callees)
    ensures callees == CalleeMap(g.View())
  {
    callees := map[];
    var todo := g.Calls.Keys;
    while todo != {}
      invariant todo <= g.Calls.Keys
      invariant forall f :: f in callees ==> f in CalleeMap(g.View()) && f !in todo
      invariant forall f :: f in CalleeMap(g.View()) && f !in todo ==>
        f in callees && callees[f] == CalleeMap(g.View())[f]
    {
      var caller :| caller in todo;
      todo := todo - {caller};
      if caller == "" {
        continue;
      }
      var list := InternalList(g.Funcs.Keys, g.Calls[caller]);
      if list != [] {
        callees := callees[caller := list];
      }
    }
  }

  /** The inner loop with its seen set. */
  method InternalList(funcs: set<FQN>, sites: seq<CallSite>) returns (list: seq<FQN>)
    ensures list == InternalCallees(funcs, sites)
  {
    list := [];
    var seen: set<FQN> := {};
    for i := 0 to |sites|
      invariant list == InternalCallees(funcs, sites[..i])
      invariant forall c :: c in seen <==> c in list
    {
      assert sites[..i + 1][..i] == sites[..i];
      var callee := sites[i].callee;
      if callee !in funcs {
        continue;
      }
      if callee in seen {
        continue;
      }
      seen := seen + {callee};
      list := list + [callee];
    }
    assert sites[..|sites|] == sites;
  }

  type Bridges = map<(FQN, FQN), CallSite>

  /** For each edge the first call site that makes it, and nothing else. */
  ghost predicate IsBridgeMap(d: Snapshot, bridges: Bridges) {
    forall f, c ::
      && ((f, c) in bridges <==> Edge(CalleeMap(d), f, c))
      && ((f, c) in bridges ==> FirstSite(Bucket(d.calls, f), c) == Some(bridges[(f, c)]))
  }

  method BuildBridgeMap(g: Graph) returns (bridges: Bridges)
    ensures IsBridgeMap(g.View(), bridges)
  {
    bridges := map[];
    ghost var d := g.View();
    var todo := g.Calls.Keys;
    while todo != {}
      invariant todo <= g.Calls.Keys
      invariant forall f, c :: (f, c) in bridges <==>
        f !in todo && f != "" && c in d.funcs && FirstSite(Bucket(d.calls, f), c).Some?
      invariant forall f, c :: (f, c) in bridges ==> FirstSite(Bucket(d.calls, f), c) == Some(bridges[(f, c)])
    {
      var caller :| caller in todo;
      todo := todo - {caller};
      if caller == "" {
        continue;
      }
      var sites := g.Calls[caller];
      ghost var before := bridges;
      for i := 0 to |sites|
        invariant forall f, c :: f != caller ==> ((f, c) in bridges <==> (f, c) in before)
        invariant forall f, c :: f != caller && (f, c) in bridges ==> bridges[(f, c)] == before[(f, c)]
        invariant forall c :: (caller, c) in bridges <==> c in d.funcs && FirstSite(sites[..i], c).Some?
        invariant forall c :: (caller, c) in bridges ==> FirstSite(sites[..i], c) == Some(bridges[(caller, c)])
      {
        var s := sites[i];
        FirstSiteGrows(sites, i);
        if s.callee !in g.Funcs {
          continue;
        }
        if (caller, s.callee) !in bridges {
          bridges := bridges[(caller, s.callee) := s];
        }
      }
      assert sites[..|sites|] == sites;
    }
    forall f, c ensures Edge(CalleeMap(d), f, c) <==> (f, c) in bridges {
      EdgeIsCall(d, f, c);
    }
  }

  lemma FirstSiteGrows(sites: seq<CallSite>, i: nat)
    requires i < |sites|
    ensures forall c :: FirstSite(sites[..i + 1], c)
                     == if FirstSite(sites[..i], c).Some? then FirstSite(sites[..i], c)
                        else if sites[i].callee == c then Some(sites[i]) else None
  {
    forall c ensures FirstSite(sites[..i + 1], c)
                  == if FirstSite(sites[..i], c).Some? then FirstSite(sites[..i], c)
                     else if sites[i].callee == c then Some(sites[i]) else None
    {
      assert sites[..i + 1] == sites[..i] + [sites[i]];
      FirstSiteAppend(sites[..i], sites[i], c);
    }
  }

  lemma {:induction false} FirstSiteAppend(sites: seq<CallSite>, s: CallSite, c: FQN)
    ensures FirstSite(sites + [s], c)
         == if FirstSite(sites, c).Some? then FirstSite(sites, c) else if s.callee == c then Some(s) else None
  {
    if sites != [] {
      FirstSiteAppend(sites[1..], s, c);
      assert (sites + [s])[1..] == sites[1..] + [s];
    }
  }

  // ---------------------------------------------------------------- evidence over a closure

  /** The buckets of the closure's members, concatenated in name order. */
  function Gather<T(!new)>(buckets: map<FQN, seq<T>>, closure: set<FQN>, names: seq<FQN>): (out: seq<T>)
    ensures forall x :: x in out <==> exists f :: f in names && f in closure && x in Bucket(buckets, f)
  {
    if names == [] then []
    else
      var n := |names| - 1;
      assert names == names[..n] + [names[n]];
      Gather(buckets, closure, names[..n]) + if names[n] in closure then Bucket(buckets, names[n]) else []
  }

  /** Between two cuts lies the bucket of a name in the closure, nothing for any other name. */
  ghost predicate Piece<T>(buckets: map<FQN, seq<T>>, closure: set<FQN>, name: FQN, out: seq<T>, lo: nat, hi: nat) {
    lo <= hi <= |out| && out[lo..hi] == if name in closure then Bucket(buckets, name) else []
  }

  /** `out` is cut into one piece per name, in the order of the names. */
  ghost predicate CutAt<T>(buckets: map<FQN, seq<T>>, closure: set<FQN>, names: seq<FQN>, out: seq<T>, cuts: seq<nat>) {
    && |cuts| == |names| + 1 && cuts[0] == 0 && cuts[|names|] == |out|
    && forall j :: 0 <= j < |names| ==> Piece(buckets, closure, names[j], out, cuts[j], cuts[j + 1])
  }

  lemma {:induction false} GatherCuts<T(!new)>(buckets: map<FQN, seq<T>>, closure: set<FQN>, names: seq<FQN>)
    returns (cuts: seq<nat>)
    ensures CutAt(buckets, closure, names, Gather(buckets, closure, names), cuts)
  {
    if names == [] {
      cuts := [0];
    } else {
      var n := |names| - 1;
      var last := if names[n] in closure then Bucket(buckets, names[n]) else [];
      cuts := GatherCuts(buckets, closure, names[..n]);
      OneMorePiece(buckets, closure, names, Gather(buckets, closure, names[..n]), cuts, last);
      cuts := cuts + [|Gather(buckets, closure, names[..n]) + last|];
    }
  }

  lemma OneMorePiece<T>(buckets: map<FQN, seq<T>>, closure: set<FQN>, names: seq<FQN>, out: seq<T>, cuts: seq<nat>,
                        last: seq<T>)
    requires names != [] && CutAt(buckets, closure, names[..|names| - 1], out, cuts)
    requires last == if names[|names| - 1] in closure then Bucket(buckets, names[|names| - 1]) else []
    ensures CutAt(buckets, closure, names, out + last, cuts + [|out + last|])
  {
    var all := cuts + [|out + last|];
    forall j | 0 <= j < |names| ensures Piece(buckets, closure, names[j], out + last, all[j], all[j + 1]) {
      if j < |names| - 1 {
        assert Piece(buckets, closure, names[..|names| - 1][j], out, cuts[j], cuts[j + 1]);
        assert (out + last)[cuts[j]..cuts[j + 1]] == out[cuts[j]..cuts[j + 1]];
      }
    }
  }

  /** The collecting loop, used for call sites, attribute reads and decorators. */
  method Collect<T(!new)>(buckets: map<FQN, seq<T>>, closure: set<FQN>, sortedAll: seq<FQN>) returns (out: seq<T>)
    ensures out == Gather(buckets, closure, sortedAll)
    ensures exists cuts :: CutAt(buckets, closure, sortedAll, out, cuts)
  {
    out := [];
    for i := 0 to |sortedAll|
      invariant out == Gather(buckets, closure, sortedAll[..i])
    {
      assert sortedAll[..i + 1][..i] == sortedAll[..i];
      if sortedAll[i] !in closure {
        continue;
      }
      out := out + Bucket(buckets, sortedAll[i]);
    }
    assert sortedAll[..|sortedAll|] == sortedAll;
    ghost var cuts := GatherCuts(buckets, closure, sortedAll);
  }

  function DecoratorsOf(funcs: map<FQN, FuncNode>): map<FQN, seq<string>> {
    map f | f in funcs :: funcs[f].decorators
  }

  method SortedFuncFQNs(g: Graph) returns (names: seq<FQN>)
    ensures names == SortedNames(g.View().funcs.Keys)
  {
    var out: seq<FQN> := [];
    var todo := g.Funcs.Keys;
    while todo != {}
      invariant todo <= g.Funcs.Keys && Distinct(out)
      invariant forall f :: f in out <==> f in g.Funcs && f !in todo
    {
      var f :| f in todo;
      todo := todo - {f};
      out := out + [f];
    }
    NameLeqIsPreorder();
    names := Sort(out, NameLeq);
    SameElements(out, names);
    PermutedDistinct(out, names);
    SortedIsAscending(names);
    AscendingUnique(names, SortedNames(g.Funcs.Keys));
  }

  // ---------------------------------------------------------------- the verdict

  ghost function EffectiveCalls(d: Snapshot, f: FQN): seq<CallSite> {
    Gather(d.calls, Closure(CalleeMap(d), f), SortedNames(d.funcs.Keys))
  }

  ghost function EffectiveFields(d: Snapshot, f: FQN): seq<FieldAccess> {
    Gather(d.fields, Closure(CalleeMap(d), f), SortedNames(d.funcs.Keys))
  }

  ghost function EffectiveDecorators(d: Snapshot, f: FQN): seq<string> {
    Gather(DecoratorsOf(d.funcs), Closure(CalleeMap(d), f), SortedNames(d.funcs.Keys))
  }

  ghost function Verdict(d: Snapshot, p: Policy, f: FQN): Option<Evaluation> {
    Evaluate(p, EffectiveCalls(d, f), EffectiveFields(d, f), EffectiveDecorators(d, f))
  }

  /** The body of `f` holds a matching call or attribute read. */
  ghost predicate Evidence(d: Snapshot, m: Matcher, f: FQN) {
    || (exists s :: s in Bucket(d.calls, f) && MatchesCall(m, s))
    || (exists a :: a in Bucket(d.fields, f) && MatchesField(m, a))
  }

  ghost predicate Decorated(d: Snapshot, m: Matcher, f: FQN) {
    f in d.funcs && exists dec :: dec in d.funcs[f].decorators && MatchesDecorator(m, dec)
  }

  ghost predicate Guarded(d: Snapshot, m: Matcher, f: FQN) {
    Evidence(d, m, f) || Decorated(d, m, f)
  }

  ghost predicate CanReach(d: Snapshot, f: FQN, g: FQN) {
    Reaches(CalleeMap(d), f, g)
  }

  /** The contract is broken at `f`: a source and a sink are reachable, no guard is. */
  ghost predicate Violates(d: Snapshot, p: Policy, f: FQN) {
    && (exists g :: CanReach(d, f, g) && Evidence(d, p.source, g))
    && (exists g :: CanReach(d, f, g) && Evidence(d, p.sink, g))
    && (forall g :: CanReach(d, f, g) ==> !Guarded(d, p.guard, g))
  }

  lemma ClosureInternal(d: Snapshot, f: FQN)
    requires f in d.funcs
    ensures Closure(CalleeMap(d), f) <= d.funcs.Keys
  {
  }

  /** Gathering loses nothing and adds nothing: an entry is collected exactly when a
      reachable function holds it. */
  lemma Gathered<T(!new)>(d: Snapshot, buckets: map<FQN, seq<T>>, f: FQN, x: T)
    requires f in d.funcs
    ensures x in Gather(buckets, Closure(CalleeMap(d), f), SortedNames(d.funcs.Keys))
       <==> exists g :: CanReach(d, f, g) && x in Bucket(buckets, g)
  {
    ClosureInternal(d, f);
    forall g ensures g in Closure(CalleeMap(d), f) <==> CanReach(d, f, g) {
      ClosureIsReachability(CalleeMap(d), f, g);
    }
  }

  /** Some reachable function holds matching evidence exactly when the search over the
      collected sites hits. */
  lemma HitIff(d: Snapshot, m: Matcher, f: FQN)
    requires f in d.funcs
    ensures FirstMatchAny(m, EffectiveCalls(d, f), EffectiveFields(d, f)).Some?
       <==> exists g :: CanReach(d, f, g) && Evidence(d, m, g)
  {
    forall s ensures s in EffectiveCalls(d, f) <==> exists g :: CanReach(d, f, g) && s in Bucket(d.calls, g) {
      Gathered(d, d.calls, f, s);
    }
    forall a ensures a in EffectiveFields(d, f) <==> exists g :: CanReach(d, f, g) && a in Bucket(d.fields, g) {
      Gathered(d, d.fields, f, a);
    }
  }

  lemma GuardIff(d: Snapshot, m: Matcher, f: FQN)
    requires f in d.funcs
    ensures GuardSatisfied(m, EffectiveCalls(d, f), EffectiveFields(d, f), EffectiveDecorators(d, f))
       <==> exists g :: CanReach(d, f, g) && Guarded(d, m, g)
  {
    HitIff(d, m, f);
    forall dec ensures dec in EffectiveDecorators(d, f)
                  <==> exists g :: CanReach(d, f, g) && dec in Bucket(DecoratorsOf(d.funcs), g)
    {
      Gathered(d, DecoratorsOf(d.funcs), f, dec);
    }
    assert forall g :: (Guarded(d, m, g)
      <==> (Evidence(d, m, g) || exists dec :: dec in Bucket(DecoratorsOf(d.funcs), g) && MatchesDecorator(m, dec)));
  }

  /** The verdict is sound and complete. */
  lemma VerdictIff(d: Snapshot, p: Policy, f: FQN)
    requires f in d.funcs
    ensures Verdict(d, p, f).Some? <==> Violates(d, p, f)
  {
    HitIff(d, p.source, f);
    HitIff(d, p.sink, f);
    GuardIff(d, p.guard, f);
  }

  /** The function whose body holds a reported site lies in the closure. */
  lemma CarrierReachable(d: Snapshot, m: Matcher, f: FQN)
    requires WellFormed(d) && f in d.funcs
    requires FirstMatchAny(m, EffectiveCalls(d, f), EffectiveFields(d, f)).Some?
    ensures
      var carrier := FirstMatchAny(m, EffectiveCalls(d, f), EffectiveFields(d, f)).value.carrier;
      CanReach(d, f, carrier) && carrier in d.funcs
  {
    var sites, fields := EffectiveCalls(d, f), EffectiveFields(d, f);
    var call := FirstCall(m, sites);
    if call.Some? {
      CollectedCallerReachable(d, f, call.value);
    } else {
      CollectedReaderReachable(d, f, FirstField(m, fields).value);
    }
  }

  lemma CollectedCallerReachable(d: Snapshot, f: FQN, s: CallSite)
    requires WellFormed(d) && f in d.funcs && s in EffectiveCalls(d, f)
    ensures CanReach(d, f, s.caller) && s.caller in d.funcs
  {
    Gathered(d, d.calls, f, s);
    ClosureInternal(d, f);
    ClosureIsReachability(CalleeMap(d), f, s.caller);
  }

  lemma CollectedReaderReachable(d: Snapshot, f: FQN, a: FieldAccess)
    requires WellFormed(d) && f in d.funcs && a in EffectiveFields(d, f)
    ensures CanReach(d, f, a.caller) && a.caller in d.funcs
  {
    Gathered(d, d.fields, f, a);
    ClosureInternal(d, f);
    ClosureIsReachability(CalleeMap(d), f, a.caller);
  }
}
