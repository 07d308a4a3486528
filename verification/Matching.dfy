/** Matching a policy against the evidence of one scope. */
module Matching {
  import opened Text
  import opened CallGraph
  import opened Policies

  datatype FindingSite = FindingSite(callee: FQN, path: string, line: int)

  /** A hit: where it is, whose body holds it, and the call site unless it is a read. */
  datatype Hit = Hit(site: FindingSite, carrier: FQN, call: Option<CallSite>)

  function FirstCall(m: Matcher, sites: seq<CallSite>): (first: Option<CallSite>)
    ensures first.Some? ==> exists i :: 0 <= i < |sites| && sites[i] == first.value && MatchesCall(m, sites[i])
                                     && forall k :: 0 <= k < i ==> !MatchesCall(m, sites[k])
    ensures first.None? ==> forall s :: s in sites ==> !MatchesCall(m, s)
  {
    if sites == [] then None
    else if MatchesCall(m, sites[0]) then Some(sites[0])
    else FirstCall(m, sites[1..])
  }

  function FirstField(m: Matcher, fields: seq<FieldAccess>): (first: Option<FieldAccess>)
    ensures first.Some? ==> exists i :: 0 <= i < |fields| && fields[i] == first.value && MatchesField(m, fields[i])
                                     && forall k :: 0 <= k < i ==> !MatchesField(m, fields[k])
    ensures first.None? ==> forall a :: a in fields ==> !MatchesField(m, a)
  {
    if fields == [] then None
    else if MatchesField(m, fields[0]) then Some(fields[0])
    else FirstField(m, fields[1..])
  }

  function AtCall(s: CallSite): Hit {
    Hit(FindingSite(s.callee, s.file.path, s.line), s.caller, Some(s))
  }

  function AtRead(a: FieldAccess): Hit {
    Hit(FindingSite(a.path, a.file.path, a.line), a.caller, None)
  }

  /** The first matching call; only when no call matches, the first matching read. */
  function FirstMatchAny(m: Matcher, sites: seq<CallSite>, fields: seq<FieldAccess>): (hit: Option<Hit>)
    ensures hit.Some? <==> || (exists s :: s in sites && MatchesCall(m, s))
                           || (exists a :: a in fields && MatchesField(m, a))
    ensures (exists s :: s in sites && MatchesCall(m, s)) ==>
      exists i :: 0 <= i < |sites| && hit == Some(AtCall(sites[i])) && MatchesCall(m, sites[i])
                  && forall k :: 0 <= k < i ==> !MatchesCall(m, sites[k])
    ensures hit.Some? && (forall s :: s in sites ==> !MatchesCall(m, s)) ==>
      exists i :: 0 <= i < |fields| && hit == Some(AtRead(fields[i])) && MatchesField(m, fields[i])
                  && forall k :: 0 <= k < i ==> !MatchesField(m, fields[k])
  {
    var call := FirstCall(m, sites);
    if call.Some? then Some(AtCall(call.value))
    else
      var read := FirstField(m, fields);
      if read.Some? then Some(AtRead(read.value)) else None
  }

  predicate GuardSatisfied(m: Matcher, sites: seq<CallSite>, fields: seq<FieldAccess>, decorators: seq<string>) {
    (exists dec :: dec in decorators && MatchesDecorator(m, dec)) || FirstMatchAny(m, sites, fields).Some?
  }

  datatype Evaluation = Evaluation(source: Hit, sink: Hit)

  /** The policy fires when no guard, a source and a sink are in evidence. */
  function Evaluate(p: Policy, sites: seq<CallSite>, fields: seq<FieldAccess>, decorators: seq<string>)
    : (ev: Option<Evaluation>)
  {
    if GuardSatisfied(p.guard, sites, fields, decorators) then None
    else
      var source := FirstMatchAny(p.source, sites, fields);
      if source.None? then None
      else
        var sink := FirstMatchAny(p.sink, sites, fields);
        if sink.None? then None
        else Some(Evaluation(source.value, sink.value))
  }
}
