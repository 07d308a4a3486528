/** Small graphs on which the program does otherwise than its documentation says. */
module Examples {
  import opened Text
  import opened Syntax
  import opened CallGraph
  import opened Policies
  import opened Reachability
  import opened Solver
  import opened Analysis
  import opened MinimalViolators
  import opened DecoratorSources

  function PlainCall(caller: FQN, callee: FQN): CallSite {
    CallSite(caller, callee, callee, File("a.py", ""), None, 1)
  }

  function PlainFunc(name: FQN, decorators: seq<string>): FuncNode {
    FuncNode(name, File("a.py", ""), 1, decorators, "")
  }

  function PlainPolicy(source: Predicate): Policy {
    Policy("p", Error, "", Matcher([source]), Matcher([Calls("sink")]), Matcher([Calls("guard")]), None)
  }

  predicate Plain(pattern: string) {
    !HasSuffix(pattern, WILDCARD)
  }

  lemma Shown(d: Snapshot, f: FQN, name: string)
    requires PlainCall(f, name) in Bucket(d.calls, f) && Plain(name)
    ensures Evidence(d, Matcher([Calls(name)]), f)
  {
    assert Calls(name) in [Calls(name)];
    assert MatchesCall(Matcher([Calls(name)]), PlainCall(f, name));
  }

  /** Nothing is read and only these names are called. */
  ghost predicate CallsOnly(d: Snapshot, callees: set<FQN>) {
    && d.fields == map[]
    && forall f, s :: s in Bucket(d.calls, f) ==> s.callee in callees && s.raw == s.callee
  }

  lemma Unguarded(d: Snapshot, callees: set<FQN>, guardName: string, f: FQN)
    requires CallsOnly(d, callees) && guardName !in callees && Plain(guardName)
    ensures !Guarded(d, Matcher([Calls(guardName)]), f)
  {
    forall s | s in Bucket(d.calls, f) ensures !MatchesCall(Matcher([Calls(guardName)]), s) {
    }
  }

  lemma ShortNamesArePlain()
    ensures Plain("source") && Plain("sink") && Plain("guard")
  {
    assert "source"[4..][0] == 'c' && "sink"[2..][0] == 'n' && "guard"[3..][0] == 'r' && WILDCARD[0] == '.';
  }

  // ---------------------------------------------------------------- a cycle

  /** f and g call each other, f also calls the source and g the sink. */
  ghost predicate IsCycle(d: Snapshot, f: FQN, g: FQN) {
    && d.funcs.Keys == {f, g} && f != "" && g != "" && CallsOnly(d, {f, g, "source", "sink"})
    && PlainCall(f, g) in Bucket(d.calls, f) && PlainCall(g, f) in Bucket(d.calls, g)
    && PlainCall(f, "source") in Bucket(d.calls, f) && PlainCall(g, "sink") in Bucket(d.calls, g)
  }

  /** Both are reported, although each of them calls the other. */
  lemma CycleIsReported() returns (d: Snapshot, p: Policy)
    ensures WellFormed(d) && CanReach(d, "f", "g") && Reported(d, p, "f") && Reported(d, p, "g")
  {
    d := CycleOf("f", "g");
    p := PlainPolicy(Calls("source"));
    CycleReported(d, p, "f", "g");
  }

  lemma CycleOf(f: FQN, g: FQN) returns (d: Snapshot)
    requires f != g && f !in {"", "guard", MODULE_SCOPE} && g !in {"", "guard", MODULE_SCOPE}
    ensures WellFormed(d) && IsCycle(d, f, g)
  {
    var inF, inG := [PlainCall(f, g), PlainCall(f, "source")], [PlainCall(g, f), PlainCall(g, "sink")];
    d := Snapshot(map[f := PlainFunc(f, []), g := PlainFunc(g, [])], map[f := inF, g := inG], map[], map[]);
    assert Bucket(d.calls, f) == inF && Bucket(d.calls, g) == inG;
    assert inF[0] in inF && inF[1] in inF && inG[0] in inG && inG[1] in inG;
  }

  lemma CycleReported(d: Snapshot, p: Policy, f: FQN, g: FQN)
    requires IsCycle(d, f, g) && p == PlainPolicy(Calls("source")) && f != "guard" && g != "guard"
    ensures CanReach(d, f, g) && Reported(d, p, f) && Reported(d, p, g)
  {
    CycleReaches(d, f, g);
    CycleViolates(d, p, f, g);
    MutualRecursionAlike(d, p, f, g);
    forall h | CanReach(d, f, h) ensures CanReach(d, h, f) {
      ReachedInCycle(d, f, g, h);
    }
  }

  lemma ReachedInCycle(d: Snapshot, f: FQN, g: FQN, h: FQN)
    requires d.funcs.Keys == {f, g} && CanReach(d, f, h) && CanReach(d, g, f)
    ensures CanReach(d, h, f)
  {
    ClosureIsReachability(CalleeMap(d), f, h);
    ClosureInternal(d, f);
    ReachesSelf(CalleeMap(d), f);
    assert h in {f, g};
  }

  lemma CycleReaches(d: Snapshot, f: FQN, g: FQN)
    requires IsCycle(d, f, g)
    ensures CanReach(d, f, g) && CanReach(d, g, f)
  {
    var m := CalleeMap(d);
    EdgeIsCall(d, f, g);
    EdgeIsCall(d, g, f);
    ReachesSelf(m, f);
    ReachesSelf(m, g);
    ReachesStep(m, f, f, g);
    ReachesStep(m, g, g, f);
  }

  lemma CycleViolates(d: Snapshot, p: Policy, f: FQN, g: FQN)
    requires IsCycle(d, f, g) && p == PlainPolicy(Calls("source")) && f != "guard" && g != "guard" && CanReach(d, f, g)
    ensures Violates(d, p, f)
  {
    ShortNamesArePlain();
    CycleUnguarded(d, p, f, g);
    Shown(d, f, "source");
    Shown(d, g, "sink");
    ReachesSelf(CalleeMap(d), f);
  }

  lemma CycleUnguarded(d: Snapshot, p: Policy, f: FQN, g: FQN)
    requires IsCycle(d, f, g) && p == PlainPolicy(Calls("source")) && f != "guard" && g != "guard"
    ensures forall h :: !Guarded(d, p.guard, h)
  {
    ShortNamesArePlain();
    forall h ensures !Guarded(d, p.guard, h) {
      Unguarded(d, {f, g, "source", "sink"}, "guard", h);
    }
  }

  // ---------------------------------------------------------------- a decorated source

  /** A function marked as the policy's source says, with an unguarded sink call. */
  lemma DecoratedSourceMissed() returns (d: Snapshot, p: Policy)
    ensures WellFormed(d) && "f" in d.funcs && d.funcs["f"].decorators == ["public_endpoint"]
    ensures p.source == Matcher([HasDecorator("@public_endpoint")])
    ensures DocumentedViolates(d, p, "f") && !Violates(d, p, "f")
  {
    var sites := [PlainCall("f", "sink")];
    d := Snapshot(map["f" := PlainFunc("f", ["public_endpoint"])], map["f" := sites], map[], map[]);
    p := PlainPolicy(HasDecorator("@public_endpoint"));
    assert sites[0] == PlainCall("f", "sink") && CallsOnly(d, {"sink"});
    MarkedSource(d, p);
    DecoratorsNeverReport(d, p, []);
  }

  lemma MarkedSource(d: Snapshot, p: Policy)
    requires "f" in d.funcs && d.funcs["f"].decorators == ["public_endpoint"]
    requires CallsOnly(d, {"sink"}) && PlainCall("f", "sink") in Bucket(d.calls, "f")
    requires p == PlainPolicy(HasDecorator("@public_endpoint"))
    ensures DocumentedViolates(d, p, "f")
  {
    ShortNamesArePlain();
    Shown(d, "f", "sink");
    ReachesSelf(CalleeMap(d), "f");
    var mark := p.source.anyOf[0];
    assert mark in p.source.anyOf && TrimPrefix(mark.name, "@") == "public_endpoint";
    assert "public_endpoint" in d.funcs["f"].decorators && MatchesDecorator(p.source, "public_endpoint");
    assert Decorated(d, p.source, "f");
    forall h ensures !Guarded(d, p.guard, h) {
      Unguarded(d, {"sink"}, "guard", h);
    }
  }
}
