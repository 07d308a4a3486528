/** Applying cross-service edges: synthetic call sites added to the graph in place, edge
    after edge, so that earlier ones feed later ones. */
module ServiceMap {
  import opened Text
  import opened CallGraph
  import opened Policies
  import opened Reachability
  import opened Solver

  datatype ServiceEdge = ServiceEdge(from: string, to: FQN)

  /** Like a `calls` predicate, except that a wildcard also tries the raw text. */
  predicate EdgeMatches(pattern: string, callee: FQN, raw: string) {
    if HasSuffix(pattern, WILDCARD) then
      var prefix := TrimSuffix(pattern, WILDCARD);
      Under(prefix, callee) || Under(prefix, raw)
    else callee == pattern || raw == pattern
  }

  /** `from` has the forms of a `calls` predicate, with one difference: a wildcard also
      covers sites whose raw text alone lies under the prefix. */
  lemma FormsDifferOnRawText(pattern: string, site: CallSite)
    ensures CallsMatches(pattern, site) ==> EdgeMatches(pattern, site.callee, site.raw)
    ensures EdgeMatches(pattern, site.callee, site.raw) && !CallsMatches(pattern, site)
       <==> && HasSuffix(pattern, WILDCARD)
            && Under(TrimSuffix(pattern, WILDCARD), site.raw) && !Under(TrimSuffix(pattern, WILDCARD), site.callee)
  {
  }

  /** The synthetic site keeps caller, file, node and line of the one it stems from. */
  function Synthetic(caller: FQN, to: FQN, site: CallSite): CallSite {
    CallSite(caller, to, to, site.file, site.node, site.line)
  }

  /** The matching sites, in order. */
  function Matched(from: string, sites: seq<CallSite>): (ms: seq<CallSite>)
    ensures forall s :: s in ms <==> s in sites && EdgeMatches(from, s.callee, s.raw)
  {
    if sites == [] then []
    else
      var n := |sites| - 1;
      assert sites == sites[..n] + [sites[n]];
      Matched(from, sites[..n]) + if EdgeMatches(from, sites[n].callee, sites[n].raw) then [sites[n]] else []
  }

  function Synthesize(caller: FQN, to: FQN, sites: seq<CallSite>): (ss: seq<CallSite>)
    ensures |ss| == |sites|
    ensures forall x :: x in ss <==> exists s :: s in sites && x == Synthetic(caller, to, s)
  {
    if sites == [] then []
    else
      var n := |sites| - 1;
      assert sites == sites[..n] + [sites[n]];
      Synthesize(caller, to, sites[..n]) + [Synthetic(caller, to, sites[n])]
  }

  /** A bucket and one synthetic site per match in it. */
  function Extended(caller: FQN, edge: ServiceEdge, sites: seq<CallSite>): seq<CallSite> {
    sites + Synthesize(caller, edge.to, Matched(edge.from, sites))
  }

  /** One edge: every bucket is extended by one site per match found before the edge ran. */
  function EdgeStep(calls: map<FQN, seq<CallSite>>, edge: ServiceEdge): map<FQN, seq<CallSite>> {
    map f | f in calls :: Extended(f, edge, calls[f])
  }

  /** The first `n` edges; those to unknown functions are skipped. */
  function Applied(d: Snapshot, edges: seq<ServiceEdge>, n: nat): (r: Snapshot)
    requires n <= |edges|
    ensures r.funcs == d.funcs && r.fields == d.fields && r.suppressions == d.suppressions
    ensures r.calls.Keys == d.calls.Keys
  {
    if n == 0 then d
    else
      var before := Applied(d, edges, n - 1);
      if edges[n - 1].to in d.funcs then before.(calls := EdgeStep(before.calls, edges[n - 1])) else before
  }

  // ---------------------------------------------------------------- the methods

  datatype Pending = Pending(caller: FQN, site: CallSite)

  function SitesOf(pending: seq<Pending>, caller: FQN): seq<CallSite> {
    if pending == [] then []
    else
      var n := |pending| - 1;
      SitesOf(pending[..n], caller) + if pending[n].caller == caller then [pending[n].site] else []
  }

  lemma SitesOfAppend(pending: seq<Pending>, p: Pending)
    ensures forall f ::
      SitesOf(pending + [p], f) == if p.caller == f then SitesOf(pending, f) + [p.site] else SitesOf(pending, f)
  {
    assert (pending + [p])[..|pending|] == pending;
  }

  /** The caller has the pending sites `mine`, every other one what it had. */
  ghost predicate Found(was: seq<Pending>, now: seq<Pending>, caller: FQN, mine: seq<CallSite>) {
    && (forall f :: SitesOf(now, f) == if f == caller then mine else SitesOf(was, f))
    && forall p :: p in now ==> p in was || p.caller == caller
  }

  lemma FoundNext(was: seq<Pending>, now: seq<Pending>, caller: FQN, mine: seq<CallSite>, site: CallSite)
    requires Found(was, now, caller, mine)
    ensures Found(was, now + [Pending(caller, site)], caller, mine + [site])
  {
    SitesOfAppend(now, Pending(caller, site));
  }

  /** The inner collecting loop. */
  method CollectFrom(pending0: seq<Pending>, caller: FQN, sites: seq<CallSite>, from: string)
    returns (pending: seq<Pending>)
    requires SitesOf(pending0, caller) == []
    ensures Found(pending0, pending, caller, Matched(from, sites))
  {
    pending := pending0;
    for i := 0 to |sites|
      invariant Found(pending0, pending, caller, Matched(from, sites[..i]))
    {
      MatchedNext(from, sites, i);
      if !EdgeMatches(from, sites[i].callee, sites[i].raw) {
        continue;
      }
      FoundNext(pending0, pending, caller, Matched(from, sites[..i]), sites[i]);
      pending := pending + [Pending(caller, sites[i])];
    }
    assert sites[..|sites|] == sites;
  }

  lemma MatchedNext(from: string, sites: seq<CallSite>, i: nat)
    requires i < |sites|
    ensures Matched(from, sites[..i + 1])
         == if EdgeMatches(from, sites[i].callee, sites[i].raw)
            then Matched(from, sites[..i]) + [sites[i]] else Matched(from, sites[..i])
  {
    assert sites[..i + 1][..i] == sites[..i];
  }

  /** The matches of every caller not left to do. */
  ghost predicate Collected(calls: map<FQN, seq<CallSite>>, from: string, todo: set<FQN>, pending: seq<Pending>) {
    && (forall f :: f in todo ==> SitesOf(pending, f) == [])
    && (forall f :: f !in todo ==> SitesOf(pending, f) == Matched(from, Bucket(calls, f)))
    && forall p :: p in pending ==> p.caller in calls
  }

  /** Collects first, so that sites added by this edge never match it again. */
  method CollectPending(g: Graph, from: string) returns (pending: seq<Pending>)
    ensures Collected(g.View().calls, from, {}, pending)
  {
    pending := [];
    var todo := g.Calls.Keys;
    while todo != {}
      invariant todo <= g.Calls.Keys && Collected(g.Calls, from, todo, pending)
    {
      var caller :| caller in todo;
      pending := CollectFrom(pending, caller, g.Calls[caller], from);
      todo := todo - {caller};
    }
  }

  /** What `f` had, and a synthetic site for each of its entries in `added`. */
  ghost predicate AddedTo(f: FQN, was: seq<CallSite>, to: FQN, added: seq<Pending>, now: seq<CallSite>) {
    now == was + Synthesize(f, to, SitesOf(added, f))
  }

  ghost predicate Adding(was: map<FQN, seq<CallSite>>, to: FQN, added: seq<Pending>, now: map<FQN, seq<CallSite>>) {
    now.Keys == was.Keys && forall f :: f in was ==> AddedTo(f, was[f], to, added, now[f])
  }

  lemma AddingNone(was: map<FQN, seq<CallSite>>, to: FQN)
    ensures Adding(was, to, [], was)
  {
  }

  lemma AddingStep(was: map<FQN, seq<CallSite>>, to: FQN, added: seq<Pending>, p: Pending, now: map<FQN, seq<CallSite>>)
    requires Adding(was, to, added, now) && p.caller in was
    ensures Adding(was, to, added + [p], Append(now, p.caller, Synthetic(p.caller, to, p.site)))
  {
    var next := Append(now, p.caller, Synthetic(p.caller, to, p.site));
    forall f | f in was ensures AddedTo(f, was[f], to, added + [p], next[f]) {
      assert AddedTo(f, was[f], to, added, now[f]);
      OneMore(f, was[f], to, added, p, now[f]);
    }
  }

  lemma OneMore(f: FQN, was: seq<CallSite>, to: FQN, added: seq<Pending>, p: Pending, now: seq<CallSite>)
    requires AddedTo(f, was, to, added, now)
    ensures AddedTo(f, was, to, added + [p], if f == p.caller then now + [Synthetic(f, to, p.site)] else now)
  {
    SitesOfAppend(added, p);
    if f == p.caller {
      AddedLast(was, f, to, SitesOf(added, f), p.site);
    }
  }

  lemma AddedLast(sites: seq<CallSite>, caller: FQN, to: FQN, mine: seq<CallSite>, s: CallSite)
    ensures (sites + Synthesize(caller, to, mine)) + [Synthetic(caller, to, s)] == sites + Synthesize(caller, to, mine + [s])
  {
    SynthesizeAppend(caller, to, mine, s);
    ConcatAssociative(sites, Synthesize(caller, to, mine), [Synthetic(caller, to, s)]);
  }

  lemma SynthesizeAppend(caller: FQN, to: FQN, sites: seq<CallSite>, s: CallSite)
    ensures Synthesize(caller, to, sites + [s]) == Synthesize(caller, to, sites) + [Synthetic(caller, to, s)]
  {
    assert (sites + [s])[..|sites|] == sites;
  }

  /** The adding loop. */
  method AddPending(g: Graph, to: FQN, pending: seq<Pending>)
    requires g.Valid() && forall p :: p in pending ==> p.caller in g.Calls
    modifies g
    ensures g.Valid() && g.View() == old(g.View()).(calls := g.Calls)
    ensures Adding(old(g.Calls), to, pending, g.Calls)
  {
    ghost var was := g.View();
    AddingNone(was.calls, to);
    for i := 0 to |pending|
      invariant g.Valid() && g.View() == was.(calls := g.Calls)
      invariant Adding(was.calls, to, pending[..i], g.Calls)
    {
      var p := pending[i];
      AddOne(was.calls, to, pending, i, g.Calls);
      g.AddCall(Synthetic(p.caller, to, p.site));
    }
    assert pending[..|pending|] == pending;
  }

  lemma AddOne(was: map<FQN, seq<CallSite>>, to: FQN, pending: seq<Pending>, i: nat, now: map<FQN, seq<CallSite>>)
    requires i < |pending| && Adding(was, to, pending[..i], now)
    requires forall p :: p in pending ==> p.caller in was
    ensures
      var p := pending[i];
      Adding(was, to, pending[..i + 1], Append(now, p.caller, Synthetic(p.caller, to, p.site)))
  {
    assert pending[i] in pending && pending[..i + 1] == pending[..i] + [pending[i]];
    AddingStep(was, to, pending[..i], pending[i], now);
  }

  method ApplyEdge(g: Graph, edge: ServiceEdge)
    requires g.Valid()
    modifies g
    ensures g.Valid()
    ensures g.View() == old(g.View()).(calls := EdgeStep(old(g.Calls), edge))
  {
    var pending := CollectPending(g, edge.from);
    AddPending(g, edge.to, pending);
    AddingDone(old(g.Calls), edge, pending, g.Calls);
  }

  lemma AddingDone(was: map<FQN, seq<CallSite>>, edge: ServiceEdge, pending: seq<Pending>, now: map<FQN, seq<CallSite>>)
    requires Adding(was, edge.to, pending, now) && Collected(was, edge.from, {}, pending)
    ensures now == EdgeStep(was, edge)
  {
    forall f | f in was ensures now[f] == Extended(f, edge, was[f]) {
      assert Bucket(was, f) == was[f];
    }
    MapsEqual(now, EdgeStep(was, edge));
  }

  /** Adds the synthetic sites of the whole map, for every iteration order. */
  method Apply(g: Graph, edges: seq<ServiceEdge>)
    requires g.Valid()
    modifies g
    ensures g.Valid()
    ensures g.View() == Applied(old(g.View()), edges, |edges|)
  {
    for i := 0 to |edges|
      invariant g.Valid()
      invariant g.View() == Applied(old(g.View()), edges, i)
    {
      if edges[i].to !in g.Funcs {
        continue;
      }
      ApplyEdge(g, edges[i]);
    }
  }

  // ---------------------------------------------------------------- what is added

  /** The original call list of each caller stays a prefix. */
  lemma {:induction false} CallsStayPrefix(d: Snapshot, edges: seq<ServiceEdge>, n: nat, f: FQN)
    requires n <= |edges| && f in d.calls
    ensures d.calls[f] <= Applied(d, edges, n).calls[f]
  {
    if n > 0 {
      CallsStayPrefix(d, edges, n - 1, f);
    }
  }

  /** Each edge adds exactly as many sites as matched before it ran. */
  lemma AddsOnePerMatch(calls: map<FQN, seq<CallSite>>, edge: ServiceEdge, f: FQN)
    requires f in calls
    ensures |EdgeStep(calls, edge)[f]| == |calls[f]| + |Matched(edge.from, calls[f])|
  {
  }

  /** Starting at call site `s`, some chain of live edges, in map order, ends with edge
      `i`: each matches the site itself or the target of an earlier one. */
  ghost predicate Fires(d: Snapshot, edges: seq<ServiceEdge>, s: CallSite, i: nat)
    requires i < |edges|
  {
    && edges[i].to in d.funcs
    && (|| EdgeMatches(edges[i].from, s.callee, s.raw)
        || exists j: nat :: j < i && Fires(d, edges, s, j) && EdgeMatches(edges[i].from, edges[j].to, edges[j].to))
  }

  /** `x` is a call of `to` in the body of `f`, at the place of `s`: same file, same syntax
      node, same line. */
  ghost predicate AtPlaceOf(x: CallSite, f: FQN, to: FQN, s: CallSite) {
    && x.caller == f && x.callee == to && x.raw == to
    && x.file == s.file && x.node == s.node && x.line == s.line
  }

  /** The target of edge `i`, put at the place of an original site that a chain leads from. */
  ghost predicate TracedTo(d: Snapshot, edges: seq<ServiceEdge>, i: nat, f: FQN, x: CallSite)
    requires i < |edges| && f in d.calls
  {
    exists s :: s in d.calls[f] && Fires(d, edges, s, i) && AtPlaceOf(x, f, edges[i].to, s)
  }

  /** An original site, or the target of one of the first `n` edges at an original place. */
  ghost predicate Traced(d: Snapshot, edges: seq<ServiceEdge>, n: nat, f: FQN, x: CallSite)
    requires n <= |edges| && f in d.calls
  {
    x in d.calls[f] || exists i: nat :: i < n && TracedTo(d, edges, i, f, x)
  }

  /** Provenance, both ways: after the map is applied a caller holds its original sites
      and, for each of them and each edge a chain leads to, the synthetic site that
      inherits its place. Nothing else. */
  lemma {:induction false} Provenance(d: Snapshot, edges: seq<ServiceEdge>, n: nat, f: FQN, x: CallSite)
    requires n <= |edges| && f in d.calls
    ensures x in Applied(d, edges, n).calls[f] <==> Traced(d, edges, n, f, x)
  {
    if n > 0 {
      var m := n - 1;
      forall y ensures y in Applied(d, edges, m).calls[f] <==> Traced(d, edges, m, f, y) {
        Provenance(d, edges, m, f, y);
      }
      TracedByLast(d, edges, m, f, x);
      if edges[m].to in d.funcs {
        AddedByLast(d, edges, m, f, x);
        ExtendedHas(f, edges[m], Applied(d, edges, m).calls[f], x);
      }
    }
  }

  lemma TracedByLast(d: Snapshot, edges: seq<ServiceEdge>, m: nat, f: FQN, x: CallSite)
    requires m < |edges| && f in d.calls
    ensures Traced(d, edges, m + 1, f, x) <==> Traced(d, edges, m, f, x) || TracedTo(d, edges, m, f, x)
    ensures TracedTo(d, edges, m, f, x) ==> edges[m].to in d.funcs
  {
  }

  lemma ExtendedHas(f: FQN, edge: ServiceEdge, sites: seq<CallSite>, x: CallSite)
    ensures x in Extended(f, edge, sites) <==> x in sites || x in Synthesize(f, edge.to, Matched(edge.from, sites))
  {
  }

  lemma AddedByLast(d: Snapshot, edges: seq<ServiceEdge>, m: nat, f: FQN, x: CallSite)
    requires m < |edges| && f in d.calls && edges[m].to in d.funcs
    requires forall y :: y in Applied(d, edges, m).calls[f] <==> Traced(d, edges, m, f, y)
    ensures x in Synthesize(f, edges[m].to, Matched(edges[m].from, Applied(d, edges, m).calls[f]))
       <==> TracedTo(d, edges, m, f, x)
  {
    var e := edges[m];
    var matched := Matched(e.from, Applied(d, edges, m).calls[f]);
    if x in Synthesize(f, e.to, matched) {
      var y :| y in matched && x == Synthetic(f, e.to, y);
      var s := StemsFrom(d, edges, m, f, y);
    }
    forall s | s in d.calls[f] && Fires(d, edges, s, m) && AtPlaceOf(x, f, e.to, s)
      ensures x in Synthesize(f, e.to, matched)
    {
      var y := Carries(d, edges, m, f, s);
    }
  }

  /** A matching site already there stems from an original one at the same place. */
  lemma StemsFrom(d: Snapshot, edges: seq<ServiceEdge>, m: nat, f: FQN, y: CallSite) returns (s: CallSite)
    requires m < |edges| && f in d.calls && edges[m].to in d.funcs
    requires Traced(d, edges, m, f, y) && EdgeMatches(edges[m].from, y.callee, y.raw)
    ensures s in d.calls[f] && Fires(d, edges, s, m)
    ensures Synthetic(f, edges[m].to, s) == Synthetic(f, edges[m].to, y)
  {
    if y in d.calls[f] {
      s := y;
    } else {
      var i: nat :| i < m && TracedTo(d, edges, i, f, y);
      s :| s in d.calls[f] && Fires(d, edges, s, i) && AtPlaceOf(y, f, edges[i].to, s);
    }
  }

  /** A chain that reaches the last edge has put a matching site there. */
  lemma Carries(d: Snapshot, edges: seq<ServiceEdge>, m: nat, f: FQN, s: CallSite) returns (y: CallSite)
    requires m < |edges| && f in d.calls && s in d.calls[f] && Fires(d, edges, s, m)
    ensures Traced(d, edges, m, f, y) && EdgeMatches(edges[m].from, y.callee, y.raw)
    ensures Synthetic(f, edges[m].to, s) == Synthetic(f, edges[m].to, y)
  {
    if EdgeMatches(edges[m].from, s.callee, s.raw) {
      y := s;
    } else {
      var j: nat :| j < m && Fires(d, edges, s, j) && EdgeMatches(edges[m].from, edges[j].to, edges[j].to);
      y := Synthetic(f, edges[j].to, s);
      assert TracedTo(d, edges, j, f, y);
    }
  }

  // ---------------------------------------------------------------- in which order

  /** `places` are the indices of the matching sites, in ascending order. */
  ghost predicate MatchingPlaces(from: string, sites: seq<CallSite>, places: seq<nat>) {
    && (forall j, k :: 0 <= j < k < |places| ==> places[j] < places[k])
    && forall i: nat :: i in places <==> i < |sites| && EdgeMatches(from, sites[i].callee, sites[i].raw)
  }

  lemma {:induction false} MatchedAt(from: string, sites: seq<CallSite>) returns (places: seq<nat>)
    ensures MatchingPlaces(from, sites, places) && |places| == |Matched(from, sites)|
    ensures forall j :: 0 <= j < |places| ==> places[j] < |sites| && Matched(from, sites)[j] == sites[places[j]]
  {
    if sites == [] {
      places := [];
    } else {
      var n := |sites| - 1;
      places := MatchedAt(from, sites[..n]);
      PlacesGrow(from, sites, places);
      if EdgeMatches(from, sites[n].callee, sites[n].raw) {
        places := places + [n];
      }
    }
  }

  lemma PlacesGrow(from: string, sites: seq<CallSite>, places: seq<nat>)
    requires sites != [] && MatchingPlaces(from, sites[..|sites| - 1], places)
    ensures
      var n := |sites| - 1;
      MatchingPlaces(from, sites, if EdgeMatches(from, sites[n].callee, sites[n].raw) then places + [n] else places)
  {
    var n := |sites| - 1;
    assert forall j :: 0 <= j < |places| ==> places[j] in places;
    assert forall i: nat :: i < n ==> sites[..n][i] == sites[i];
    assert forall i: nat :: i in places + [n] <==> i in places || i == n;
  }

  lemma {:induction false} SynthesizeAt(f: FQN, to: FQN, sites: seq<CallSite>, j: nat)
    requires j < |sites|
    ensures AtPlaceOf(Synthesize(f, to, sites)[j], f, to, sites[j])
  {
    if j < |sites| - 1 {
      SynthesizeAt(f, to, sites[..|sites| - 1], j);
    }
  }

  /** One edge, complete: a bucket keeps its sites and gets, behind them and in their order,
      a call of the target at the place of each that matches. */
  lemma AddedInOrder(calls: map<FQN, seq<CallSite>>, edge: ServiceEdge, f: FQN) returns (places: seq<nat>)
    requires f in calls
    ensures MatchingPlaces(edge.from, calls[f], places)
    ensures
      var was, now := calls[f], EdgeStep(calls, edge)[f];
      && |now| == |was| + |places| && now[..|was|] == was
      && forall j :: 0 <= j < |places| ==> places[j] < |was| && AtPlaceOf(now[|was| + j], f, edge.to, was[places[j]])
  {
    places := MatchedAt(edge.from, calls[f]);
    ExtendedAt(f, edge, calls[f], Matched(edge.from, calls[f]));
    forall j | 0 <= j < |places|
      ensures AtPlaceOf(EdgeStep(calls, edge)[f][|calls[f]| + j], f, edge.to, calls[f][places[j]])
    {
    }
  }

  lemma ExtendedAt(f: FQN, edge: ServiceEdge, sites: seq<CallSite>, matched: seq<CallSite>)
    requires matched == Matched(edge.from, sites)
    ensures |Extended(f, edge, sites)| == |sites| + |matched| && Extended(f, edge, sites)[..|sites|] == sites
    ensures forall j :: 0 <= j < |matched| ==> AtPlaceOf(Extended(f, edge, sites)[|sites| + j], f, edge.to, matched[j])
  {
    forall j | 0 <= j < |matched| ensures AtPlaceOf(Extended(f, edge, sites)[|sites| + j], f, edge.to, matched[j]) {
      SynthesizeAt(f, edge.to, matched, j);
    }
  }

  /** The graph invariant survives, and every added site calls a known function. */
  lemma {:induction false} KeepsWellFormed(d: Snapshot, edges: seq<ServiceEdge>, n: nat)
    requires n <= |edges| && WellFormed(d)
    ensures WellFormed(Applied(d, edges, n))
    ensures forall f, x :: f in d.calls && x in Applied(d, edges, n).calls[f] && x !in d.calls[f] ==> x.callee in d.funcs
  {
    var after := Applied(d, edges, n);
    forall f, x | f in after.calls && x in after.calls[f]
      ensures x.caller == f && (x in d.calls[f] || x.callee in d.funcs)
    {
      Provenance(d, edges, n, f, x);
    }
  }

  // ---------------------------------------------------------------- what it means for the analysis

  /** Reachability only grows. */
  lemma ReachabilityGrows(d: Snapshot, edges: seq<ServiceEdge>, n: nat, f: FQN, g: FQN)
    requires n <= |edges| && CanReach(d, f, g)
    ensures CanReach(Applied(d, edges, n), f, g)
  {
    var after := Applied(d, edges, n);
    var p :| Chain(CalleeMap(d), f, g, p);
    forall i | 0 <= i < |p| - 1 ensures Edge(CalleeMap(after), p[i], p[i + 1]) {
      EdgeStays(d, edges, n, p[i], p[i + 1]);
    }
    assert Chain(CalleeMap(after), f, g, p);
  }

  lemma EdgeStays(d: Snapshot, edges: seq<ServiceEdge>, n: nat, f: FQN, g: FQN)
    requires n <= |edges| && Edge(CalleeMap(d), f, g)
    ensures Edge(CalleeMap(Applied(d, edges, n)), f, g)
  {
    EdgeIsCall(d, f, g);
    EdgeIsCall(Applied(d, edges, n), f, g);
    var s := FirstSite(Bucket(d.calls, f), g).value;
    Provenance(d, edges, n, f, s);
  }

  /** Every closure can only grow. */
  lemma ClosureGrows(d: Snapshot, edges: seq<ServiceEdge>, n: nat, f: FQN)
    requires n <= |edges|
    ensures Closure(CalleeMap(d), f) <= Closure(CalleeMap(Applied(d, edges, n)), f)
  {
    forall g | g in Closure(CalleeMap(d), f) ensures g in Closure(CalleeMap(Applied(d, edges, n)), f) {
      ClosureIsReachability(CalleeMap(d), f, g);
      ReachabilityGrows(d, edges, n, f, g);
      ClosureIsReachability(CalleeMap(Applied(d, edges, n)), f, g);
    }
  }

  /** Evidence is never lost: what a function could reach of a source, a sink or a guard
      it still reaches. */
  lemma EvidenceStays(d: Snapshot, edges: seq<ServiceEdge>, n: nat, m: Matcher, f: FQN)
    requires n <= |edges|
    ensures (exists g :: CanReach(d, f, g) && Evidence(d, m, g))
        ==> exists g :: CanReach(Applied(d, edges, n), f, g) && Evidence(Applied(d, edges, n), m, g)
    ensures (exists g :: CanReach(d, f, g) && Guarded(d, m, g))
        ==> exists g :: CanReach(Applied(d, edges, n), f, g) && Guarded(Applied(d, edges, n), m, g)
  {
    var after := Applied(d, edges, n);
    forall g | Evidence(d, m, g) ensures Evidence(after, m, g) {
      if s :| s in Bucket(d.calls, g) && MatchesCall(m, s) {
        Provenance(d, edges, n, g, s);
        assert s in Bucket(after.calls, g);
      }
    }
    forall g | CanReach(d, f, g) ensures CanReach(after, f, g) {
      ReachabilityGrows(d, edges, n, f, g);
    }
  }

  /** So a verdict can only change from compliant to violating by a new source or sink,
      and from violating to compliant by a new guard. */
  lemma VerdictChanges(d: Snapshot, edges: seq<ServiceEdge>, n: nat, p: Policy, f: FQN)
    requires n <= |edges|
    ensures
      var after := Applied(d, edges, n);
      && (Violates(d, p, f) && !Violates(after, p, f) ==> exists g :: CanReach(after, f, g) && Guarded(after, p.guard, g))
      && (!Violates(d, p, f) && Violates(after, p, f) ==>
            || (forall g :: CanReach(d, f, g) ==> !Evidence(d, p.source, g))
            || (forall g :: CanReach(d, f, g) ==> !Evidence(d, p.sink, g)))
  {
    EvidenceStays(d, edges, n, p.source, f);
    EvidenceStays(d, edges, n, p.sink, f);
    EvidenceStays(d, edges, n, p.guard, f);
  }
}
