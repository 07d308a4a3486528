/** Decorators under `source`: documented, and without effect. */
module DecoratorSources {
  import opened Text
  import opened CallGraph
  import opened Policies
  import opened Matching
  import opened Solver
  import opened Analysis

  predicate OnlyDecorators(m: Matcher) {
    forall pred :: pred in m.anyOf ==> pred.HasDecorator?
  }

  /** A policy whose source, or sink, names decorators only reports nothing, on any graph. */
  lemma DecoratorsNeverReport(d: Snapshot, p: Policy, findings: seq<Finding>)
    requires OnlyDecorators(p.source) || OnlyDecorators(p.sink)
    ensures forall f :: !Violates(d, p, f)
    ensures IsAnalysis(d, p, findings) <==> findings == []
  {
    forall m: Matcher, g | OnlyDecorators(m) ensures !Evidence(d, m, g) {
    }
    assert Evaluate(p, Bucket(d.calls, ""), Bucket(d.fields, ""), []).None?;
    forall x ensures !Expected(d, p, x) {
    }
    if findings != [] {
      assert findings[0] in findings && !Expected(d, p, findings[0]);
    }
  }

  /** The documented verdict, in which a matching decorator is a source like a matching call. */
  ghost predicate DocumentedViolates(d: Snapshot, p: Policy, f: FQN) {
    && (exists g :: CanReach(d, f, g) && (Evidence(d, p.source, g) || Decorated(d, p.source, g)))
    && (exists g :: CanReach(d, f, g) && Evidence(d, p.sink, g))
    && (forall g :: CanReach(d, f, g) ==> !Guarded(d, p.guard, g))
  }

  /** Documentation and code agree at `f` exactly when a guard is in reach, or no sink is,
      or a source call or read is, or no decorator that `source` names is. */
  lemma DocumentedIff(d: Snapshot, p: Policy, f: FQN)
    ensures (DocumentedViolates(d, p, f) <==> Violates(d, p, f)) <==>
      || (exists g :: CanReach(d, f, g) && Guarded(d, p.guard, g))
      || (forall g :: CanReach(d, f, g) ==> !Evidence(d, p.sink, g))
      || (exists g :: CanReach(d, f, g) && Evidence(d, p.source, g))
      || (forall g :: CanReach(d, f, g) ==> !Decorated(d, p.source, g))
  {
  }
}
