/** Where a call that only the service map brings is shown: at the place of the client call it
    stems from. */
module ServiceHops {
  import opened Text
  import opened CallGraph
  import opened Reachability
  import opened Solver
  import opened Analysis
  import opened ServiceMap

  // ---------------------------------------------------------------- the first site of a new call

  lemma {:induction false} LaterKeepsPrefix(d: Snapshot, edges: seq<ServiceEdge>, m: nat, n: nat, f: FQN)
    requires m <= n <= |edges| && f in d.calls
    ensures Applied(d, edges, m).calls[f] <= Applied(d, edges, n).calls[f]
  {
    if m < n {
      LaterKeepsPrefix(d, edges, m, n - 1, f);
    }
  }

  /** Edge `k` is the first that brings a call of `to` into the body of `f`. */
  ghost predicate FirstToBring(d: Snapshot, edges: seq<ServiceEdge>, k: nat, f: FQN, to: FQN) {
    && k < |edges| && f in d.calls && edges[k].to == to && (exists s :: s in d.calls[f] && Fires(d, edges, s, k))
    && forall i, s :: 0 <= i < k && edges[i].to == to && s in d.calls[f] ==> !Fires(d, edges, s, i)
  }

  /** `s` is the first site of the list that the edge matches. */
  ghost predicate FirstClient(edge: ServiceEdge, sites: seq<CallSite>, s: CallSite) {
    exists i :: 0 <= i < |sites| && sites[i] == s && EdgeMatches(edge.from, s.callee, s.raw)
                && forall l :: 0 <= l < i ==> !EdgeMatches(edge.from, sites[l].callee, sites[l].raw)
  }

  lemma NothingBroughtYet(d: Snapshot, edges: seq<ServiceEdge>, k: nat, f: FQN, to: FQN)
    requires FirstToBring(d, edges, k, f, to) && forall s :: s in d.calls[f] ==> s.callee != to
    ensures forall x :: x in Applied(d, edges, k).calls[f] ==> x.callee != to
  {
    forall x | x in Applied(d, edges, k).calls[f] ensures x.callee != to {
      Provenance(d, edges, k, f, x);
    }
  }

  lemma FirstIsThere(was: seq<CallSite>, now: seq<CallSite>, all: seq<CallSite>, to: FQN)
    requires |was| < |now| && now[..|was|] == was && now <= all && now[|was|].callee == to
    requires forall x :: x in was ==> x.callee != to
    ensures FirstSite(all, to) == Some(now[|was|])
  {
    assert all[|was|] == now[|was|];
    assert forall l :: 0 <= l < |was| ==> all[l] == now[l] == was[l] && was[l] in was;
  }

  lemma SomePlace(d: Snapshot, edges: seq<ServiceEdge>, k: nat, f: FQN, places: seq<nat>)
    requires k < |edges| && f in d.calls && exists s :: s in d.calls[f] && Fires(d, edges, s, k)
    requires MatchingPlaces(edges[k].from, Applied(d, edges, k).calls[f], places)
    ensures places != []
  {
    var was := Applied(d, edges, k).calls[f];
    var s :| s in d.calls[f] && Fires(d, edges, s, k);
    var y := Carries(d, edges, k, f, s);
    Provenance(d, edges, k, f, y);
    var i: nat :| i < |was| && was[i] == y;
    assert i in places;
  }

  /** The first match stems from an original client, and is the first of them when the edge
      matches an original site directly. */
  lemma ClientOf(d: Snapshot, edges: seq<ServiceEdge>, k: nat, f: FQN, places: seq<nat>) returns (s: CallSite)
    requires k < |edges| && f in d.calls && edges[k].to in d.funcs
    requires MatchingPlaces(edges[k].from, Applied(d, edges, k).calls[f], places) && places != []
    ensures s in d.calls[f] && Fires(d, edges, s, k)
    ensures places[0] < |Applied(d, edges, k).calls[f]|
    ensures forall x :: AtPlaceOf(x, f, edges[k].to, Applied(d, edges, k).calls[f][places[0]]) ==>
      AtPlaceOf(x, f, edges[k].to, s)
    ensures (exists x :: x in d.calls[f] && EdgeMatches(edges[k].from, x.callee, x.raw)) ==>
      FirstClient(edges[k], d.calls[f], s)
  {
    var was, own := Applied(d, edges, k).calls[f], d.calls[f];
    assert places[0] in places;
    var client := was[places[0]];
    Provenance(d, edges, k, f, client);
    CallsStayPrefix(d, edges, k, f);
    FirstPlace(edges[k], was, places, own);
    if places[0] < |own| {
      s := own[places[0]];
    } else {
      s := StemsFrom(d, edges, k, f, client);
    }
  }

  /** The first site of a new call is at the place of an original client call that leads to the
      first edge which brings it. */
  lemma BroughtAt(d: Snapshot, edges: seq<ServiceEdge>, k: nat, f: FQN, to: FQN) returns (s: CallSite)
    requires FirstToBring(d, edges, k, f, to) && forall x :: x in d.calls[f] ==> x.callee != to
    ensures s in d.calls[f] && Fires(d, edges, s, k)
    ensures
      var site := FirstSite(Applied(d, edges, |edges|).calls[f], to);
      site.Some? && AtPlaceOf(site.value, f, to, s)
    ensures (exists x :: x in d.calls[f] && EdgeMatches(edges[k].from, x.callee, x.raw)) ==>
      FirstClient(edges[k], d.calls[f], s)
  {
    var was, now := Applied(d, edges, k).calls[f], Applied(d, edges, k + 1).calls[f];
    var places := FirstAdded(d, edges, k, f);
    NothingBroughtYet(d, edges, k, f, to);
    LaterKeepsPrefix(d, edges, k + 1, |edges|, f);
    FirstIsThere(was, now, Applied(d, edges, |edges|).calls[f], to);
    s := ClientOf(d, edges, k, f, places);
  }

  lemma FirstAdded(d: Snapshot, edges: seq<ServiceEdge>, k: nat, f: FQN) returns (places: seq<nat>)
    requires k < |edges| && f in d.calls && exists s :: s in d.calls[f] && Fires(d, edges, s, k)
    ensures places != [] && MatchingPlaces(edges[k].from, Applied(d, edges, k).calls[f], places)
    ensures
      var was, now := Applied(d, edges, k).calls[f], Applied(d, edges, k + 1).calls[f];
      && |was| < |now| && now[..|was|] == was
      && places[0] < |was| && AtPlaceOf(now[|was|], f, edges[k].to, was[places[0]])
  {
    places := AddedInOrder(Applied(d, edges, k).calls, edges[k], f);
    SomePlace(d, edges, k, f, places);
  }

  /** Below the first place nothing matches. */
  lemma FirstPlace(edge: ServiceEdge, sites: seq<CallSite>, places: seq<nat>, front: seq<CallSite>)
    requires MatchingPlaces(edge.from, sites, places) && places != [] && front <= sites
    ensures forall l :: 0 <= l < |front| && l < places[0] ==> !EdgeMatches(edge.from, front[l].callee, front[l].raw)
  {
    forall l | 0 <= l < |front| && l < places[0] ensures !EdgeMatches(edge.from, front[l].callee, front[l].raw) {
      assert l !in places;
    }
  }

  // ---------------------------------------------------------------- hops

  lemma {:induction false} SomeFirstToBring(d: Snapshot, edges: seq<ServiceEdge>, i: nat, f: FQN, s: CallSite)
    returns (k: nat)
    requires i < |edges| && f in d.calls && s in d.calls[f] && Fires(d, edges, s, i)
    ensures k <= i && FirstToBring(d, edges, k, f, edges[i].to)
    decreases i
  {
    if j: nat, t :| j < i && edges[j].to == edges[i].to && t in d.calls[f] && Fires(d, edges, t, j) {
      k := SomeFirstToBring(d, edges, j, f, t);
    } else {
      k := i;
    }
  }

  lemma NewEdgeBrought(d: Snapshot, edges: seq<ServiceEdge>, f: FQN, to: FQN) returns (k: nat)
    requires Edge(CalleeMap(Applied(d, edges, |edges|)), f, to) && !Edge(CalleeMap(d), f, to)
    ensures FirstToBring(d, edges, k, f, to) && forall x :: x in d.calls[f] ==> x.callee != to
  {
    var after := Applied(d, edges, |edges|);
    EdgeIsCall(d, f, to);
    EdgeIsCall(after, f, to);
    var x := FirstSite(Bucket(after.calls, f), to).value;
    Provenance(d, edges, |edges|, f, x);
    var i: nat :| i < |edges| && TracedTo(d, edges, i, f, x);
    var s :| s in d.calls[f] && Fires(d, edges, s, i) && AtPlaceOf(x, f, edges[i].to, s);
    k := SomeFirstToBring(d, edges, i, f, s);
  }

  /** In a counterexample a hop over an edge that only the service map brings shows file and
      line of an original call in that body, one that leads to the first edge of the map which
      brings the callee; where that edge matches an original call, of the first such call. */
  lemma HopShowsClient(d: Snapshot, edges: seq<ServiceEdge>, src: FQN, dst: FQN, hops: seq<ChainHop>, i: nat)
    returns (k: nat, s: CallSite)
    requires Counterexample(Applied(d, edges, |edges|), src, dst, hops) && i + 1 < |hops|
    requires !Edge(CalleeMap(d), hops[i].fqn, hops[i + 1].fqn)
    ensures FirstToBring(d, edges, k, hops[i].fqn, hops[i + 1].fqn)
    ensures s in d.calls[hops[i].fqn] && Fires(d, edges, s, k)
    ensures hops[i].path == s.file.path && hops[i].line == s.line
    ensures (exists x :: x in d.calls[hops[i].fqn] && EdgeMatches(edges[k].from, x.callee, x.raw)) ==>
      FirstClient(edges[k], d.calls[hops[i].fqn], s)
  {
    var after, names := Applied(d, edges, |edges|), HopNames(hops);
    assert Edge(CalleeMap(after), names[i], names[i + 1]);
    assert HopFits(after, hops[i], Next(names, i));
    k := NewEdgeBrought(d, edges, hops[i].fqn, hops[i + 1].fqn);
    s := BroughtAt(d, edges, k, hops[i].fqn, hops[i + 1].fqn);
  }
}
