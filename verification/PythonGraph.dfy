/** What the Python walk records, stated on the tree alone. */
module PythonGraph {
  import opened Text
  import opened Syntax
  import opened CallGraph
  import opened Solver
  import opened RelativeImports
  import opened PythonWalk

  // ---------------------------------------------------------------- events of a tree

  /** A call under its innermost enclosing function, an attribute read likewise, or a
      definition with the children of the decorated definition around it. */
  datatype Event =
    | CallEvent(caller: FQN, file: File, node: Node)
    | ReadEvent(caller: FQN, file: File, node: Node)
    | DefEvent(fqn: FQN, file: File, def: Node, above: seq<Child>)

  function CallEvents(u: Unit, n: Node, cur: FQN): seq<Event> {
    if n.ByField(FunctionField).Some? then [CallEvent(cur, u.file, n)] else []
  }

  function ReadEvents(u: Unit, n: Node, isCallee: bool, cur: FQN): seq<Event> {
    if !isCallee && n.ByField(AttributeField).Some? then [ReadEvent(cur, u.file, n)] else []
  }

  /** The events of a subtree in source order; no state is threaded. */
  function Events(u: Unit, n: Node, isCallee: bool, scope: seq<string>, cur: FQN): seq<Event>
    decreases n, |n.children| + 2
  {
    match n.kind
    case ImportStatement => []
    case ImportFromStatement => []
    case DecoratedDefinition =>
      var i := InnerIn(n.children, |n.children|);
      if i < 0 then []
      else if n.children[i].node.kind == FunctionDefinition then
        EventsOfFunction(u, n.children[i].node, n.children, scope)
      else EventsOfClass(u, n.children[i].node, scope, cur)
    case ClassDefinition => EventsOfClass(u, n, scope, cur)
    case FunctionDefinition => EventsOfFunction(u, n, [], scope)
    case Call => CallEvents(u, n, cur) + EventsFirst(u, n, |n.children|, scope, cur)
    case Attribute => ReadEvents(u, n, isCallee, cur) + EventsFirst(u, n, |n.children|, scope, cur)
    case _ => EventsFirst(u, n, |n.children|, scope, cur)
  }

  function EventsFirst(u: Unit, n: Node, k: nat, scope: seq<string>, cur: FQN): seq<Event>
    requires k <= |n.children|
    decreases n, k
  {
    if k == 0 then []
    else EventsFirst(u, n, k - 1, scope, cur) + Events(u, n.children[k - 1].node, IsCallee(n, k - 1), scope, cur)
  }

  function EventsOfClass(u: Unit, n: Node, scope: seq<string>, cur: FQN): seq<Event>
    decreases n, |n.children| + 1
  {
    var name, body := n.ByField(NameField), n.ByField(BodyField);
    if name.None? || body.None? then []
    else EventsFirst(u, body.value, |body.value.children|, scope + [name.value.text], cur)
  }

  function EventsOfFunction(u: Unit, n: Node, above: seq<Child>, scope: seq<string>): seq<Event>
    decreases n, |n.children| + 1
  {
    var name, body := n.ByField(NameField), n.ByField(BodyField);
    if name.None? then []
    else
      var fqn := FunctionName(u.mod, scope, name.value.text);
      [DefEvent(fqn, u.file, n, above)]
      + if body.None? then []
        else EventsFirst(u, body.value, |body.value.children|, scope + [name.value.text], fqn)
  }

  function CallsOf(events: seq<Event>, f: FQN): seq<Event> {
    if events == [] then []
    else (if events[0].CallEvent? && events[0].caller == f then [events[0]] else []) + CallsOf(events[1..], f)
  }

  function ReadsOf(events: seq<Event>, f: FQN): seq<Event> {
    if events == [] then []
    else (if events[0].ReadEvent? && events[0].caller == f then [events[0]] else []) + ReadsOf(events[1..], f)
  }

  function DefsOf(events: seq<Event>): set<FQN> {
    if events == [] then {}
    else (if events[0].DefEvent? then {events[0].fqn} else {}) + DefsOf(events[1..])
  }

  /** The last definition of `f`. */
  function LastDef(events: seq<Event>, f: FQN): Option<Event> {
    if events == [] then None
    else
      var later := LastDef(events[1..], f);
      if later.Some? then later else if events[0].DefEvent? && events[0].fqn == f then Some(events[0]) else None
  }

  // ---------------------------------------------------------------- what an event leaves in the graph

  /** The site of a call: its text is that of the called expression, its line that of the call. */
  predicate IsCallSite(e: Event, s: CallSite) {
    && e.CallEvent? && s.caller == e.caller && s.file == e.file && s.node == Some(e.node)
    && s.line == e.node.start.row + 1
    && e.node.ByField(FunctionField).Some? && s.raw == e.node.ByField(FunctionField).value.text
  }

  predicate IsRead(e: Event, a: FieldAccess) {
    && e.ReadEvent? && a.caller == e.caller && a.file == e.file && a.line == e.node.start.row + 1
    && a.path == e.node.text
    && e.node.ByField(AttributeField).Some? && a.field == e.node.ByField(AttributeField).value.text
  }

  /** `name` is what the decorator is called: of a call the called expression, else the whole
      expression behind the mark. */
  predicate NamesDecorator(dec: Node, name: string) {
    if dec.children == [] then name == ""
    else
      var expr := dec.children[0].node;
      if expr.kind == Call && expr.ByField(FunctionField).Some? then name == expr.ByField(FunctionField).value.text
      else name == expr.text
  }

  /** `places` are the indices of the decorators, in ascending order. */
  ghost predicate DecoratorPlaces(children: seq<Child>, places: seq<nat>) {
    && (forall j, k :: 0 <= j < k < |places| ==> places[j] < places[k])
    && forall i: nat :: i in places <==> i < |children| && children[i].node.kind == Decorator
  }

  /** The names are those of the decorators among the children, in order. */
  ghost predicate NamesWritten(children: seq<Child>, names: seq<string>) {
    exists places :: DecoratorPlaces(children, places) && NamesAt(children, places, names)
  }

  ghost predicate NamesAt(children: seq<Child>, places: seq<nat>, names: seq<string>) {
    && |names| == |places|
    && forall j :: 0 <= j < |places| ==>
         places[j] < |children| && NamesDecorator(children[places[j]].node, names[j])
  }

  /** The function is registered with the file and line of the definition and the names of
      the decorators written above it. */
  ghost predicate Registers(e: Event, fn: FuncNode) {
    && e.DefEvent? && fn.fqn == e.fqn && fn.file == e.file && fn.line == e.def.start.row + 1
    && fn.returnType == "" && NamesWritten(e.above, fn.decorators)
  }

  ghost predicate AddsCalls(before: seq<CallSite>, events: seq<Event>, after: seq<CallSite>) {
    && |after| == |before| + |events| && after[..|before|] == before
    && forall i :: 0 <= i < |events| ==> IsCallSite(events[i], after[|before| + i])
  }

  ghost predicate AddsReads(before: seq<FieldAccess>, events: seq<Event>, after: seq<FieldAccess>) {
    && |after| == |before| + |events| && after[..|before|] == before
    && forall i :: 0 <= i < |events| ==> IsRead(events[i], after[|before| + i])
  }

  ghost predicate KeepsEntry<V>(before: map<FQN, V>, after: map<FQN, V>, f: FQN) {
    (f in after <==> f in before) && (f in before ==> after[f] == before[f])
  }

  ghost predicate Latest(before: Snapshot, last: Option<Event>, after: Snapshot, f: FQN) {
    if last.None? then KeepsEntry(before.funcs, after.funcs, f)
    else f in after.funcs && Registers(last.value, after.funcs[f])
  }

  /** `after` is `before` plus exactly these events, each recorded once, in order, under
      the caller it names; a function is registered as it was defined last. */
  ghost predicate Records(before: Snapshot, events: seq<Event>, after: Snapshot) {
    && (forall f :: AddsCalls(Bucket(before.calls, f), CallsOf(events, f), Bucket(after.calls, f)))
    && (forall f :: AddsReads(Bucket(before.fields, f), ReadsOf(events, f), Bucket(after.fields, f)))
    && (forall f :: Latest(before, LastDef(events, f), after, f))
    && after.suppressions == before.suppressions
  }

  // ---------------------------------------------------------------- the walk records the events

  lemma {:induction false} CallsOfAppend(a: seq<Event>, b: seq<Event>, f: FQN)
    ensures CallsOf(a + b, f) == CallsOf(a, f) + CallsOf(b, f)
  {
    if a == [] {
      assert a + b == b;
    } else {
      CallsOfAppend(a[1..], b, f);
      assert (a + b)[1..] == a[1..] + b;
      ConcatAssociative(if a[0].CallEvent? && a[0].caller == f then [a[0]] else [], CallsOf(a[1..], f), CallsOf(b, f));
    }
  }

  lemma {:induction false} ReadsOfAppend(a: seq<Event>, b: seq<Event>, f: FQN)
    ensures ReadsOf(a + b, f) == ReadsOf(a, f) + ReadsOf(b, f)
  {
    if a == [] {
      assert a + b == b;
    } else {
      ReadsOfAppend(a[1..], b, f);
      assert (a + b)[1..] == a[1..] + b;
      ConcatAssociative(if a[0].ReadEvent? && a[0].caller == f then [a[0]] else [], ReadsOf(a[1..], f), ReadsOf(b, f));
    }
  }

  lemma {:induction false} DefsOfAppend(a: seq<Event>, b: seq<Event>)
    ensures DefsOf(a + b) == DefsOf(a) + DefsOf(b)
  {
    if a == [] {
      assert a + b == b;
    } else {
      DefsOfAppend(a[1..], b);
      assert (a + b)[1..] == a[1..] + b;
    }
  }

  lemma {:induction false} LastDefAppend(a: seq<Event>, b: seq<Event>, f: FQN)
    ensures LastDef(a + b, f) == if LastDef(b, f).Some? then LastDef(b, f) else LastDef(a, f)
  {
    if a == [] {
      assert a + b == b;
    } else {
      LastDefAppend(a[1..], b, f);
      assert (a + b)[1..] == a[1..] + b && (a + b)[0] == a[0];
    }
  }

  lemma {:induction false} LastDefIff(events: seq<Event>, f: FQN)
    ensures LastDef(events, f).Some? <==> f in DefsOf(events)
  {
    if events != [] {
      LastDefIff(events[1..], f);
    }
  }

  /** The registered names are those that are defined. */
  lemma RecordsNames(before: Snapshot, events: seq<Event>, after: Snapshot)
    requires Records(before, events, after)
    ensures after.funcs.Keys == before.funcs.Keys + DefsOf(events)
  {
    forall f ensures f in after.funcs <==> f in before.funcs || f in DefsOf(events) {
      LastDefIff(events, f);
      assert Latest(before, LastDef(events, f), after, f);
    }
  }

  lemma RecordsNothing(d: Snapshot)
    ensures Records(d, [], d)
  {
  }

  lemma CallsAdded(s0: seq<CallSite>, a: seq<Event>, s1: seq<CallSite>, b: seq<Event>, s2: seq<CallSite>)
    requires AddsCalls(s0, a, s1) && AddsCalls(s1, b, s2)
    ensures AddsCalls(s0, a + b, s2)
  {
    assert s2[..|s0|] == s2[..|s1|][..|s0|];
    forall i | 0 <= i < |a + b| ensures IsCallSite((a + b)[i], s2[|s0| + i]) {
      if i < |a| {
        assert s2[|s0| + i] == s2[..|s1|][|s0| + i];
      } else {
        assert s2[|s0| + i] == s2[|s1| + (i - |a|)];
      }
    }
  }

  lemma ReadsAdded(s0: seq<FieldAccess>, a: seq<Event>, s1: seq<FieldAccess>, b: seq<Event>, s2: seq<FieldAccess>)
    requires AddsReads(s0, a, s1) && AddsReads(s1, b, s2)
    ensures AddsReads(s0, a + b, s2)
  {
    assert s2[..|s0|] == s2[..|s1|][..|s0|];
    forall i | 0 <= i < |a + b| ensures IsRead((a + b)[i], s2[|s0| + i]) {
      if i < |a| {
        assert s2[|s0| + i] == s2[..|s1|][|s0| + i];
      } else {
        assert s2[|s0| + i] == s2[|s1| + (i - |a|)];
      }
    }
  }

  lemma RecordsBoth(d0: Snapshot, a: seq<Event>, d1: Snapshot, b: seq<Event>, d2: Snapshot)
    requires Records(d0, a, d1) && Records(d1, b, d2)
    ensures Records(d0, a + b, d2)
  {
    forall f
      ensures AddsCalls(Bucket(d0.calls, f), CallsOf(a + b, f), Bucket(d2.calls, f))
      ensures AddsReads(Bucket(d0.fields, f), ReadsOf(a + b, f), Bucket(d2.fields, f))
      ensures Latest(d0, LastDef(a + b, f), d2, f)
    {
      CallsOfAppend(a, b, f);
      CallsAdded(Bucket(d0.calls, f), CallsOf(a, f), Bucket(d1.calls, f), CallsOf(b, f), Bucket(d2.calls, f));
      ReadsOfAppend(a, b, f);
      ReadsAdded(Bucket(d0.fields, f), ReadsOf(a, f), Bucket(d1.fields, f), ReadsOf(b, f), Bucket(d2.fields, f));
      LastDefAppend(a, b, f);
      LatestOfBoth(d0, LastDef(a, f), d1, LastDef(b, f), d2, f);
    }
  }

  lemma LatestOfBoth(d0: Snapshot, a: Option<Event>, d1: Snapshot, b: Option<Event>, d2: Snapshot, f: FQN)
    requires Latest(d0, a, d1, f) && Latest(d1, b, d2, f)
    ensures Latest(d0, if b.Some? then b else a, d2, f)
  {
  }

  lemma OneEvent(e: Event, f: FQN)
    ensures CallsOf([e], f) == if e.CallEvent? && e.caller == f then [e] else []
    ensures ReadsOf([e], f) == if e.ReadEvent? && e.caller == f then [e] else []
    ensures LastDef([e], f) == if e.DefEvent? && e.fqn == f then Some(e) else None
    ensures DefsOf([e]) == if e.DefEvent? then {e.fqn} else {}
  {
    assert [e][1..] == [];
  }

  lemma RecordsCall(u: Unit, n: Node, cur: FQN, st: Walked)
    ensures Records(st.graph, CallEvents(u, n, cur), Called(u, n, cur, st).graph)
  {
    if n.ByField(FunctionField).None? {
      RecordsNothing(st.graph);
    } else {
      var e, d, after := CallEvent(cur, u.file, n), st.graph, Called(u, n, cur, st).graph;
      forall f
        ensures AddsCalls(Bucket(d.calls, f), CallsOf([e], f), Bucket(after.calls, f))
        ensures ReadsOf([e], f) == [] && LastDef([e], f) == None
      {
        OneEvent(e, f);
        if f == cur {
          OneCallAdded(Bucket(d.calls, f), e, Bucket(after.calls, f)[|Bucket(d.calls, f)|]);
        }
      }
    }
  }

  lemma OneCallAdded(sites: seq<CallSite>, e: Event, s: CallSite)
    requires IsCallSite(e, s)
    ensures AddsCalls(sites, [e], sites + [s])
  {
  }

  lemma OneReadAdded(fields: seq<FieldAccess>, e: Event, a: FieldAccess)
    requires IsRead(e, a)
    ensures AddsReads(fields, [e], fields + [a])
  {
  }

  lemma RecordsRead(u: Unit, n: Node, cur: FQN, st: Walked)
    ensures Records(st.graph, ReadEvents(u, n, false, cur), Accessed(u, n, cur, st).graph)
  {
    if n.ByField(AttributeField).None? {
      RecordsNothing(st.graph);
    } else {
      var e, d, after := ReadEvent(cur, u.file, n), st.graph, Accessed(u, n, cur, st).graph;
      forall f
        ensures AddsReads(Bucket(d.fields, f), ReadsOf([e], f), Bucket(after.fields, f))
        ensures CallsOf([e], f) == [] && LastDef([e], f) == None
      {
        OneEvent(e, f);
        if f == cur {
          OneReadAdded(Bucket(d.fields, f), e, Bucket(after.fields, f)[|Bucket(d.fields, f)|]);
        }
      }
    }
  }

  lemma {:induction false} DecoratorsAre(children: seq<Child>, k: nat) returns (places: seq<nat>)
    requires k <= |children|
    ensures DecoratorPlaces(children[..k], places) && NamesAt(children[..k], places, DecoratorsIn(children, k))
  {
    if k == 0 {
      places := [];
    } else {
      places := DecoratorsAre(children, k - 1);
      OneMoreDecorator(children, k, places, DecoratorsIn(children, k - 1));
      if children[k - 1].node.kind == Decorator {
        places := places + [k - 1];
      }
    }
  }

  lemma OneMoreDecorator(children: seq<Child>, k: nat, places: seq<nat>, names: seq<string>)
    requires 0 < k <= |children|
    requires DecoratorPlaces(children[..k - 1], places) && NamesAt(children[..k - 1], places, names)
    ensures
      var c := children[k - 1].node;
      if c.kind == Decorator
      then && DecoratorPlaces(children[..k], places + [k - 1])
           && NamesAt(children[..k], places + [k - 1], names + [DecoratorName(c)])
      else DecoratorPlaces(children[..k], places) && NamesAt(children[..k], places, names)
  {
    assert forall j :: 0 <= j < |places| ==> places[j] in places;
    assert forall i: nat :: i < k - 1 ==> children[..k][i] == children[..k - 1][i];
    assert children[..k][k - 1] == children[k - 1];
    assert forall i: nat :: i in places + [k - 1] <==> i in places || i == k - 1;
  }

  /** The collected decorators are the ones that are written. */
  lemma DecoratorsWritten(children: seq<Child>)
    ensures NamesWritten(children, DecoratorsIn(children, |children|))
  {
    var places := DecoratorsAre(children, |children|);
    assert children[..|children|] == children;
  }

  lemma RecordsDef(u: Unit, n: Node, fqn: FQN, above: seq<Child>, decorators: seq<string>, st: Walked)
    requires NamesWritten(above, decorators)
    ensures Records(st.graph, [DefEvent(fqn, u.file, n, above)], Defined(u, n, fqn, decorators, st).graph)
  {
    var e := DefEvent(fqn, u.file, n, above);
    forall f
      ensures CallsOf([e], f) == [] && ReadsOf([e], f) == []
      ensures LastDef([e], f) == if f == fqn then Some(e) else None
    {
      OneEvent(e, f);
    }
    assert Registers(e, FuncNode(fqn, u.file, n.Line(), decorators, ""));
  }

  /** The walk adds to the graph exactly the events of the tree: every visited call and
      every attribute that is not called, once, under its innermost enclosing function. */
  lemma {:induction false} WalkRecordsEvents(u: Unit, n: Node, isCallee: bool, scope: seq<string>, cur: FQN, st: Walked)
    ensures Records(st.graph, Events(u, n, isCallee, scope, cur), Walk(u, n, isCallee, scope, cur, st).graph)
    decreases n, |n.children| + 2
  {
    match n.kind {
      case ImportStatement => RecordsNothing(st.graph);
      case ImportFromStatement => RecordsNothing(st.graph);
      case DecoratedDefinition =>
        var i := InnerIn(n.children, |n.children|);
        if i < 0 {
          RecordsNothing(st.graph);
        } else if n.children[i].node.kind == FunctionDefinition {
          DecoratorsWritten(n.children);
          var decorators := DecoratorsIn(n.children, |n.children|);
          FunctionRecordsEvents(u, n.children[i].node, n.children, decorators, scope, cur, st);
        } else {
          ClassRecordsEvents(u, n.children[i].node, scope, cur, st);
        }
      case ClassDefinition => ClassRecordsEvents(u, n, scope, cur, st);
      case FunctionDefinition =>
        DecoratorsWritten([]);
        FunctionRecordsEvents(u, n, [], [], scope, cur, st);
      case Call =>
        var mid := Called(u, n, cur, st);
        RecordsCall(u, n, cur, st);
        FirstRecordsEvents(u, n, |n.children|, scope, cur, mid);
        RecordsBoth(st.graph, CallEvents(u, n, cur), mid.graph,
                    EventsFirst(u, n, |n.children|, scope, cur), Walk(u, n, isCallee, scope, cur, st).graph);
      case Attribute =>
        if isCallee {
          FirstRecordsEvents(u, n, |n.children|, scope, cur, st);
          assert [] + EventsFirst(u, n, |n.children|, scope, cur) == EventsFirst(u, n, |n.children|, scope, cur);
        } else {
          var mid := Accessed(u, n, cur, st);
          RecordsRead(u, n, cur, st);
          FirstRecordsEvents(u, n, |n.children|, scope, cur, mid);
          RecordsBoth(st.graph, ReadEvents(u, n, false, cur), mid.graph,
                      EventsFirst(u, n, |n.children|, scope, cur), Walk(u, n, isCallee, scope, cur, st).graph);
        }
      case _ => FirstRecordsEvents(u, n, |n.children|, scope, cur, st);
    }
  }

  lemma {:induction false} FirstRecordsEvents(u: Unit, n: Node, k: nat, scope: seq<string>, cur: FQN, st: Walked)
    requires k <= |n.children|
    ensures Records(st.graph, EventsFirst(u, n, k, scope, cur), WalkFirst(u, n, k, scope, cur, st).graph)
    decreases n, k
  {
    if k == 0 {
      RecordsNothing(st.graph);
    } else {
      FirstRecordsEvents(u, n, k - 1, scope, cur, st);
      var mid := WalkFirst(u, n, k - 1, scope, cur, st);
      WalkRecordsEvents(u, n.children[k - 1].node, IsCallee(n, k - 1), scope, cur, mid);
      OneMoreChild(u, n, k, scope, cur, st);
    }
  }

  lemma OneMoreChild(u: Unit, n: Node, k: nat, scope: seq<string>, cur: FQN, st: Walked)
    requires 0 < k <= |n.children|
    requires Records(st.graph, EventsFirst(u, n, k - 1, scope, cur), WalkFirst(u, n, k - 1, scope, cur, st).graph)
    requires
      var child, mid := n.children[k - 1].node, WalkFirst(u, n, k - 1, scope, cur, st);
      Records(mid.graph, Events(u, child, IsCallee(n, k - 1), scope, cur),
              Walk(u, child, IsCallee(n, k - 1), scope, cur, mid).graph)
    ensures Records(st.graph, EventsFirst(u, n, k, scope, cur), WalkFirst(u, n, k, scope, cur, st).graph)
  {
    var child, mid := n.children[k - 1].node, WalkFirst(u, n, k - 1, scope, cur, st);
    RecordsBoth(st.graph, EventsFirst(u, n, k - 1, scope, cur), mid.graph,
                Events(u, child, IsCallee(n, k - 1), scope, cur), WalkFirst(u, n, k, scope, cur, st).graph);
  }

  lemma {:induction false} ClassRecordsEvents(u: Unit, n: Node, scope: seq<string>, cur: FQN, st: Walked)
    ensures Records(st.graph, EventsOfClass(u, n, scope, cur), WalkClass(u, n, scope, cur, st).graph)
    decreases n, |n.children| + 1
  {
    var name, body := n.ByField(NameField), n.ByField(BodyField);
    if name.None? || body.None? {
      RecordsNothing(st.graph);
    } else {
      FirstRecordsEvents(u, body.value, |body.value.children|, scope + [name.value.text], cur, st);
    }
  }

  lemma {:induction false} FunctionRecordsEvents(u: Unit, n: Node, above: seq<Child>, decorators: seq<string>,
                                                 scope: seq<string>, cur: FQN, st: Walked)
    requires NamesWritten(above, decorators)
    ensures Records(st.graph, EventsOfFunction(u, n, above, scope), WalkFunction(u, n, decorators, scope, cur, st).graph)
    decreases n, |n.children| + 1
  {
    var name, body := n.ByField(NameField), n.ByField(BodyField);
    if name.None? {
      RecordsNothing(st.graph);
    } else {
      var fqn := FunctionName(u.mod, scope, name.value.text);
      var mid := Defined(u, n, fqn, decorators, st);
      var def := DefEvent(fqn, u.file, n, above);
      RecordsDef(u, n, fqn, above, decorators, st);
      if body.Some? {
        var inner := scope + [name.value.text];
        FirstRecordsEvents(u, body.value, |body.value.children|, inner, fqn, mid);
        RecordsBoth(st.graph, [def], mid.graph, EventsFirst(u, body.value, |body.value.children|, inner, fqn),
                    WalkFunction(u, n, decorators, scope, cur, st).graph);
      } else {
        assert [def] + [] == [def];
      }
    }
  }

  // ---------------------------------------------------------------- who is named as caller

  predicate Names(e: Event, callers: set<FQN>) {
    e.DefEvent? || e.caller in callers
  }

  /** Calls and reads of a subtree name the enclosing function or one defined inside. */
  ghost predicate CallersWithin(events: seq<Event>, cur: set<FQN>) {
    forall e :: e in events ==> Names(e, cur + DefsOf(events))
  }

  lemma CallersOfBoth(a: seq<Event>, b: seq<Event>, cur: set<FQN>)
    requires CallersWithin(a, cur) && CallersWithin(b, cur)
    ensures CallersWithin(a + b, cur)
  {
    DefsOfAppend(a, b);
    forall e | e in a + b ensures Names(e, cur + DefsOf(a + b)) {
      assert e in a || e in b;
    }
  }

  lemma CallersOfOne(e: Event, cur: set<FQN>)
    requires Names(e, cur)
    ensures CallersWithin([e], cur)
  {
  }

  lemma {:induction false} EventsWithin(u: Unit, n: Node, isCallee: bool, scope: seq<string>, cur: FQN)
    ensures CallersWithin(Events(u, n, isCallee, scope, cur), {cur})
    decreases n, |n.children| + 2
  {
    match n.kind {
      case ImportStatement =>
      case ImportFromStatement =>
      case DecoratedDefinition =>
        var i := InnerIn(n.children, |n.children|);
        if i >= 0 {
          if n.children[i].node.kind == FunctionDefinition {
            BodyStaysInside(u, n.children[i].node, n.children, scope);
          } else {
            ClassWithin(u, n.children[i].node, scope, cur);
          }
        }
      case ClassDefinition => ClassWithin(u, n, scope, cur);
      case FunctionDefinition => BodyStaysInside(u, n, [], scope);
      case Call =>
        FirstWithin(u, n, |n.children|, scope, cur);
        CallersOfOne(CallEvent(cur, u.file, n), {cur});
        CallersOfBoth(CallEvents(u, n, cur), EventsFirst(u, n, |n.children|, scope, cur), {cur});
      case Attribute =>
        FirstWithin(u, n, |n.children|, scope, cur);
        CallersOfOne(ReadEvent(cur, u.file, n), {cur});
        CallersOfBoth(ReadEvents(u, n, isCallee, cur), EventsFirst(u, n, |n.children|, scope, cur), {cur});
      case _ => FirstWithin(u, n, |n.children|, scope, cur);
    }
  }

  lemma {:induction false} FirstWithin(u: Unit, n: Node, k: nat, scope: seq<string>, cur: FQN)
    requires k <= |n.children|
    ensures CallersWithin(EventsFirst(u, n, k, scope, cur), {cur})
    decreases n, k
  {
    if k > 0 {
      FirstWithin(u, n, k - 1, scope, cur);
      EventsWithin(u, n.children[k - 1].node, IsCallee(n, k - 1), scope, cur);
      CallersOfBoth(EventsFirst(u, n, k - 1, scope, cur),
                    Events(u, n.children[k - 1].node, IsCallee(n, k - 1), scope, cur), {cur});
    }
  }

  lemma {:induction false} ClassWithin(u: Unit, n: Node, scope: seq<string>, cur: FQN)
    ensures CallersWithin(EventsOfClass(u, n, scope, cur), {cur})
    decreases n, |n.children| + 1
  {
    var name, body := n.ByField(NameField), n.ByField(BodyField);
    if name.Some? && body.Some? {
      FirstWithin(u, body.value, |body.value.children|, scope + [name.value.text], cur);
    }
  }

  /** Nothing in the body of a function is ever recorded outside it: every caller named
      there is the function itself or one defined inside it. */
  lemma {:induction false} BodyStaysInside(u: Unit, n: Node, above: seq<Child>, scope: seq<string>)
    ensures CallersWithin(EventsOfFunction(u, n, above, scope), {})
    decreases n, |n.children| + 1
  {
    var name, body := n.ByField(NameField), n.ByField(BodyField);
    if name.Some? {
      var fqn := FunctionName(u.mod, scope, name.value.text);
      var inner := if body.None? then []
                   else EventsFirst(u, body.value, |body.value.children|, scope + [name.value.text], fqn);
      if body.Some? {
        FirstWithin(u, body.value, |body.value.children|, scope + [name.value.text], fqn);
      }
      DefThenBody(DefEvent(fqn, u.file, n, above), inner);
    }
  }

  lemma DefThenBody(def: Event, inner: seq<Event>)
    requires def.DefEvent? && CallersWithin(inner, {def.fqn})
    ensures CallersWithin([def] + inner, {})
  {
    var all := [def] + inner;
    assert all[1..] == inner && DefsOf(all) == {def.fqn} + DefsOf(inner);
    forall e | e in all ensures Names(e, {} + DefsOf(all)) {
      assert e == def || e in inner;
    }
  }

  // ---------------------------------------------------------------- what the graph guarantees

  /** Every bucket belongs to module scope or to a registered function. */
  ghost predicate CallersKnown(d: Snapshot) {
    && (forall f :: f in d.calls ==> f == "" || f in d.funcs)
    && (forall f :: f in d.fields ==> f == "" || f in d.funcs)
  }

  ghost predicate Sound(d: Snapshot) {
    WellFormed(d) && CallersKnown(d)
  }

  /** A function name always holds a dot, so it is neither empty nor the module marker. */
  lemma FunctionNameIsProper(mod: FQN, scope: seq<string>, name: string)
    ensures FunctionName(mod, scope, name) != "" && FunctionName(mod, scope, name) != MODULE_SCOPE
  {
    assert FunctionName(mod, scope, name)[|mod|] == '.';
    assert forall i :: 0 <= i < |MODULE_SCOPE| ==> MODULE_SCOPE[i] != '.';
  }

  lemma CalledKeepsSound(u: Unit, n: Node, cur: FQN, st: Walked)
    requires Sound(st.graph) && (cur == "" || cur in st.graph.funcs)
    ensures Sound(Called(u, n, cur, st).graph) && Called(u, n, cur, st).graph.funcs == st.graph.funcs
  {
  }

  lemma AccessedKeepsSound(u: Unit, n: Node, cur: FQN, st: Walked)
    requires Sound(st.graph) && (cur == "" || cur in st.graph.funcs)
    ensures Sound(Accessed(u, n, cur, st).graph) && Accessed(u, n, cur, st).graph.funcs == st.graph.funcs
  {
  }

  lemma {:induction false} WalkKeepsSound(u: Unit, n: Node, isCallee: bool, scope: seq<string>, cur: FQN, st: Walked)
    requires Sound(st.graph) && (cur == "" || cur in st.graph.funcs)
    ensures Sound(Walk(u, n, isCallee, scope, cur, st).graph)
    ensures st.graph.funcs.Keys <= Walk(u, n, isCallee, scope, cur, st).graph.funcs.Keys
    decreases n, |n.children| + 2
  {
    match n.kind {
      case ImportStatement =>
      case ImportFromStatement =>
      case DecoratedDefinition =>
        var i := InnerIn(n.children, |n.children|);
        if i >= 0 {
          if n.children[i].node.kind == FunctionDefinition {
            FunctionKeepsSound(u, n.children[i].node, DecoratorsIn(n.children, |n.children|), scope, cur, st);
          } else {
            ClassKeepsSound(u, n.children[i].node, scope, cur, st);
          }
        }
      case ClassDefinition => ClassKeepsSound(u, n, scope, cur, st);
      case FunctionDefinition => FunctionKeepsSound(u, n, [], scope, cur, st);
      case Call =>
        CalledKeepsSound(u, n, cur, st);
        FirstKeepsSound(u, n, |n.children|, scope, cur, Called(u, n, cur, st));
      case Attribute =>
        AccessedKeepsSound(u, n, cur, st);
        FirstKeepsSound(u, n, |n.children|, scope, cur, if isCallee then st else Accessed(u, n, cur, st));
      case _ => FirstKeepsSound(u, n, |n.children|, scope, cur, st);
    }
  }

  lemma {:induction false} FirstKeepsSound(u: Unit, n: Node, k: nat, scope: seq<string>, cur: FQN, st: Walked)
    requires k <= |n.children| && Sound(st.graph) && (cur == "" || cur in st.graph.funcs)
    ensures Sound(WalkFirst(u, n, k, scope, cur, st).graph)
    ensures st.graph.funcs.Keys <= WalkFirst(u, n, k, scope, cur, st).graph.funcs.Keys
    decreases n, k
  {
    if k > 0 {
      FirstKeepsSound(u, n, k - 1, scope, cur, st);
      WalkKeepsSound(u, n.children[k - 1].node, IsCallee(n, k - 1), scope, cur, WalkFirst(u, n, k - 1, scope, cur, st));
    }
  }

  lemma {:induction false} ClassKeepsSound(u: Unit, n: Node, scope: seq<string>, cur: FQN, st: Walked)
    requires Sound(st.graph) && (cur == "" || cur in st.graph.funcs)
    ensures Sound(WalkClass(u, n, scope, cur, st).graph)
    ensures st.graph.funcs.Keys <= WalkClass(u, n, scope, cur, st).graph.funcs.Keys
    decreases n, |n.children| + 1
  {
    var name, body := n.ByField(NameField), n.ByField(BodyField);
    if name.Some? && body.Some? {
      FirstKeepsSound(u, body.value, |body.value.children|, scope + [name.value.text], cur, st);
    }
  }

  lemma {:induction false} FunctionKeepsSound(u: Unit, n: Node, decorators: seq<string>, scope: seq<string>,
                                              cur: FQN, st: Walked)
    requires Sound(st.graph)
    ensures Sound(WalkFunction(u, n, decorators, scope, cur, st).graph)
    ensures st.graph.funcs.Keys <= WalkFunction(u, n, decorators, scope, cur, st).graph.funcs.Keys
    decreases n, |n.children| + 1
  {
    var name, body := n.ByField(NameField), n.ByField(BodyField);
    if name.Some? {
      var fqn := FunctionName(u.mod, scope, name.value.text);
      FunctionNameIsProper(u.mod, scope, name.value.text);
      if body.Some? {
        FirstKeepsSound(u, body.value, |body.value.children|, scope + [name.value.text], fqn,
                        Defined(u, n, fqn, decorators, st));
      }
    }
  }

  // ---------------------------------------------------------------- all files

  datatype Source = Source(file: File, mod: FQN, root: Node)

  function UnitOf(s: Source): Unit {
    Unit(s.file, s.mod, PythonPackage(s.file.path, s.mod))
  }

  /** File after file, each with imports of its own. */
  function Built(sources: seq<Source>, k: nat): Snapshot
    requires k <= |sources|
  {
    if k == 0 then EMPTY
    else
      var s := sources[k - 1];
      Walk(UnitOf(s), s.root, false, [], "", Walked(map[], Built(sources, k - 1))).graph
  }

  function EventsOf(sources: seq<Source>, k: nat): seq<Event>
    requires k <= |sources|
  {
    if k == 0 then []
    else EventsOf(sources, k - 1) + Events(UnitOf(sources[k - 1]), sources[k - 1].root, false, [], "")
  }

  method BuildPython(sources: seq<Source>) returns (g: Graph)
    ensures fresh(g) && g.Valid() && g.View() == Built(sources, |sources|)
  {
    g := new Graph();
    for i := 0 to |sources|
      invariant fresh(g) && g.Valid() && g.View() == Built(sources, i)
    {
      var ext := new PyExtractor(g, sources[i].file, sources[i].mod);
      ext.WalkNode(sources[i].root, false);
    }
  }

  /** The graph of a set of files holds exactly their events. */
  lemma {:induction false} BuiltRecordsEvents(sources: seq<Source>, k: nat)
    requires k <= |sources|
    ensures Records(EMPTY, EventsOf(sources, k), Built(sources, k))
  {
    if k == 0 {
      RecordsNothing(EMPTY);
    } else {
      var s, before := sources[k - 1], Built(sources, k - 1);
      BuiltRecordsEvents(sources, k - 1);
      WalkRecordsEvents(UnitOf(s), s.root, false, [], "", Walked(map[], before));
      RecordsBoth(EMPTY, EventsOf(sources, k - 1), before, Events(UnitOf(s), s.root, false, [], ""), Built(sources, k));
    }
  }

  /** It meets everything the solver asks of its input. */
  lemma {:induction false} BuiltIsSound(sources: seq<Source>, k: nat)
    requires k <= |sources|
    ensures Sound(Built(sources, k))
  {
    if k > 0 {
      var s := sources[k - 1];
      BuiltIsSound(sources, k - 1);
      WalkKeepsSound(UnitOf(s), s.root, false, [], "", Walked(map[], Built(sources, k - 1)));
    }
  }
}
