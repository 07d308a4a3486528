/** What the Python build knows of a function: where in the trees its definitions stand, and
    what is registered of the last one. */
module PythonDefinitions {
  import opened Text
  import opened Syntax
  import opened CallGraph
  import opened Policies
  import opened Solver
  import opened PythonWalk
  import opened PythonGraph

  // ---------------------------------------------------------------- definitions in a tree

  predicate Named(def: Node, name: string) {
    var n := def.ByField(NameField);
    n.Some? && n.value.text == name
  }

  /** Somewhere below `t`, inside definitions with the names of `path`, the function `name` is
      defined by `def`, with `above` around it. */
  ghost predicate Meets(t: Node, path: seq<string>, name: string, def: Node, above: seq<Child>)
    decreases t
  {
    if t.kind == ImportStatement || t.kind == ImportFromStatement then false
    else if t.kind == DecoratedDefinition then
      var i := InnerIn(t.children, |t.children|);
      i >= 0 && Enters(t.children[i].node, t.children, path, name, def, above)
    else if IsDefinition(t) then Enters(t, [], path, name, def, above)
    else exists c :: 0 <= c < |t.children| && Meets(t.children[c].node, path, name, def, above)
  }

  /** The definition `inner`, `around` standing around it, is the one that is met, or holds it
      in its body. */
  ghost predicate Enters(inner: Node, around: seq<Child>, path: seq<string>, name: string, def: Node, above: seq<Child>)
    decreases inner, 0
  {
    || (path == [] && inner.kind == FunctionDefinition && Named(inner, name) && def == inner && above == around)
    || (path != [] && Named(inner, path[0]) && inner.ByField(BodyField).Some?
        && var body := inner.ByField(BodyField).value;
           exists c :: 0 <= c < |body.children| && Meets(body.children[c].node, path[1..], name, def, above))
  }

  // ---------------------------------------------------------------- what is met is recorded

  /** The event that a definition met below `scope` leaves. */
  function Met(u: Unit, scope: seq<string>, path: seq<string>, name: string, def: Node, above: seq<Child>): Event {
    DefEvent(FunctionName(u.mod, scope + path, name), u.file, def, above)
  }

  lemma {:induction false} InFirst(u: Unit, n: Node, c: nat, k: nat, scope: seq<string>, cur: FQN, x: Event)
    requires c < k <= |n.children| && x in Events(u, n.children[c].node, IsCallee(n, c), scope, cur)
    ensures x in EventsFirst(u, n, k, scope, cur)
    decreases k
  {
    if c < k - 1 {
      InFirst(u, n, c, k - 1, scope, cur, x);
    }
  }

  lemma {:induction false} FromFirst(u: Unit, n: Node, k: nat, scope: seq<string>, cur: FQN, x: Event) returns (c: nat)
    requires k <= |n.children| && x in EventsFirst(u, n, k, scope, cur)
    ensures c < k && x in Events(u, n.children[c].node, IsCallee(n, c), scope, cur)
    decreases k
  {
    if x in Events(u, n.children[k - 1].node, IsCallee(n, k - 1), scope, cur) {
      c := k - 1;
    } else {
      c := FromFirst(u, n, k - 1, scope, cur, x);
    }
  }

  lemma OneDeeper(scope: seq<string>, path: seq<string>)
    requires path != []
    ensures (scope + [path[0]]) + path[1..] == scope + path
  {
  }

  lemma {:induction false} MetIsRecorded(u: Unit, t: Node, isCallee: bool, scope: seq<string>, cur: FQN,
                                         path: seq<string>, name: string, def: Node, above: seq<Child>)
    requires Meets(t, path, name, def, above)
    ensures Met(u, scope, path, name, def, above) in Events(u, t, isCallee, scope, cur)
    decreases t
  {
    var x := Met(u, scope, path, name, def, above);
    if t.kind == DecoratedDefinition {
      var inner := t.children[InnerIn(t.children, |t.children|)].node;
      EnteredIsRecorded(u, inner, t.children, scope, cur, path, name, def, above);
    } else if IsDefinition(t) {
      EnteredIsRecorded(u, t, [], scope, cur, path, name, def, above);
    } else {
      var c :| 0 <= c < |t.children| && Meets(t.children[c].node, path, name, def, above);
      MetIsRecorded(u, t.children[c].node, IsCallee(t, c), scope, cur, path, name, def, above);
      InFirst(u, t, c, |t.children|, scope, cur, x);
    }
  }

  lemma {:induction false} EnteredIsRecorded(u: Unit, inner: Node, around: seq<Child>, scope: seq<string>, cur: FQN,
                                             path: seq<string>, name: string, def: Node, above: seq<Child>)
    requires IsDefinition(inner) && Enters(inner, around, path, name, def, above)
    ensures Met(u, scope, path, name, def, above)
         in if inner.kind == FunctionDefinition then EventsOfFunction(u, inner, around, scope)
            else EventsOfClass(u, inner, scope, cur)
    decreases inner, 0
  {
    if path == [] {
      assert scope + path == scope;
    } else {
      var body, deeper := inner.ByField(BodyField).value, scope + [path[0]];
      var own := if inner.kind == FunctionDefinition then FunctionName(u.mod, scope, path[0]) else cur;
      var c :| 0 <= c < |body.children| && Meets(body.children[c].node, path[1..], name, def, above);
      MetIsRecorded(u, body.children[c].node, IsCallee(body, c), deeper, own, path[1..], name, def, above);
      OneDeeper(scope, path);
      InFirst(u, body, c, |body.children|, deeper, own, Met(u, scope, path, name, def, above));
    }
  }

  lemma {:induction false} RecordedIsMet(u: Unit, t: Node, isCallee: bool, scope: seq<string>, cur: FQN, x: Event)
    returns (path: seq<string>, name: string)
    requires x.DefEvent? && x in Events(u, t, isCallee, scope, cur)
    ensures Meets(t, path, name, x.def, x.above) && x == Met(u, scope, path, name, x.def, x.above)
    decreases t
  {
    if t.kind == DecoratedDefinition {
      var inner := t.children[InnerIn(t.children, |t.children|)].node;
      path, name := RecordedIsEntered(u, inner, t.children, scope, cur, x);
    } else if IsDefinition(t) {
      path, name := RecordedIsEntered(u, t, [], scope, cur, x);
    } else {
      var c := FromFirst(u, t, |t.children|, scope, cur, x);
      path, name := RecordedIsMet(u, t.children[c].node, IsCallee(t, c), scope, cur, x);
    }
  }

  lemma {:induction false} RecordedIsEntered(u: Unit, inner: Node, around: seq<Child>, scope: seq<string>, cur: FQN,
                                             x: Event)
    returns (path: seq<string>, name: string)
    requires x.DefEvent? && IsDefinition(inner)
    requires x in if inner.kind == FunctionDefinition then EventsOfFunction(u, inner, around, scope)
                  else EventsOfClass(u, inner, scope, cur)
    ensures Enters(inner, around, path, name, x.def, x.above) && x == Met(u, scope, path, name, x.def, x.above)
    decreases inner, 0
  {
    var own := inner.ByField(NameField).value.text;
    if inner.kind == FunctionDefinition && x == DefEvent(FunctionName(u.mod, scope, own), u.file, inner, around) {
      path, name := [], own;
      assert scope + path == scope;
    } else {
      var body, deeper := inner.ByField(BodyField).value, scope + [own];
      var caller := if inner.kind == FunctionDefinition then FunctionName(u.mod, scope, own) else cur;
      var c := FromFirst(u, body, |body.children|, deeper, caller, x);
      var rest;
      rest, name := RecordedIsMet(u, body.children[c].node, IsCallee(body, c), deeper, caller, x);
      path := [own] + rest;
      assert path[1..] == rest;
      OneDeeper(scope, path);
    }
  }

  // ---------------------------------------------------------------- in the built graph

  /** In file `a` a function is defined that the build registers as `fqn`. */
  ghost predicate DefinedAs(sources: seq<Source>, a: nat, fqn: FQN, def: Node, above: seq<Child>) {
    a < |sources| && exists path, name ::
      Meets(sources[a].root, path, name, def, above) && fqn == FunctionName(sources[a].mod, path, name)
  }

  lemma {:induction false} InSources(sources: seq<Source>, a: nat, k: nat, x: Event)
    requires a < k <= |sources| && x in Events(UnitOf(sources[a]), sources[a].root, false, [], "")
    ensures x in EventsOf(sources, k)
    decreases k
  {
    if a < k - 1 {
      InSources(sources, a, k - 1, x);
    }
  }

  lemma {:induction false} FromSources(sources: seq<Source>, k: nat, x: Event) returns (a: nat)
    requires k <= |sources| && x in EventsOf(sources, k)
    ensures a < k && x in Events(UnitOf(sources[a]), sources[a].root, false, [], "")
    decreases k
  {
    if x in Events(UnitOf(sources[k - 1]), sources[k - 1].root, false, [], "") {
      a := k - 1;
    } else {
      a := FromSources(sources, k - 1, x);
    }
  }

  /** The definitions in the trees are the definition events of the build. */
  lemma DefinitionEvents(sources: seq<Source>, x: Event)
    requires x.DefEvent?
    ensures x in EventsOf(sources, |sources|)
       <==> exists a: nat :: DefinedAs(sources, a, x.fqn, x.def, x.above) && x.file == sources[a].file
  {
    if x in EventsOf(sources, |sources|) {
      var a := EventIsDefinition(sources, x);
    }
    if a: nat :| DefinedAs(sources, a, x.fqn, x.def, x.above) && x.file == sources[a].file {
      DefinitionIsEvent(sources, a, x);
    }
  }

  lemma EventIsDefinition(sources: seq<Source>, x: Event) returns (a: nat)
    requires x.DefEvent? && x in EventsOf(sources, |sources|)
    ensures DefinedAs(sources, a, x.fqn, x.def, x.above) && x.file == sources[a].file
  {
    a := FromSources(sources, |sources|, x);
    var path, name := RecordedIsMet(UnitOf(sources[a]), sources[a].root, false, [], "", x);
    assert [] + path == path;
  }

  lemma DefinitionIsEvent(sources: seq<Source>, a: nat, x: Event)
    requires x.DefEvent? && DefinedAs(sources, a, x.fqn, x.def, x.above) && x.file == sources[a].file
    ensures x in EventsOf(sources, |sources|)
  {
    var path, name :| Meets(sources[a].root, path, name, x.def, x.above)
                      && x.fqn == FunctionName(sources[a].mod, path, name);
    MetIsRecorded(UnitOf(sources[a]), sources[a].root, false, [], "", path, name, x.def, x.above);
    assert [] + path == path;
    InSources(sources, a, |sources|, x);
  }

  lemma {:induction false} LastDefIn(events: seq<Event>, f: FQN)
    ensures
      var last := LastDef(events, f);
      if last.None? then forall x :: x in events && x.DefEvent? ==> x.fqn != f
      else last.value.DefEvent? && last.value.fqn == f && last.value in events
  {
    if events != [] {
      LastDefIn(events[1..], f);
      assert events == [events[0]] + events[1..];
    }
  }

  /** Registered are exactly the functions that some file defines, each with file, line and
      decorators as written at one of its definitions; at the last one, when the events of the
      files are read in order. */
  lemma RegisteredAsWritten(sources: seq<Source>, fqn: FQN)
    ensures
      var funcs, last := Built(sources, |sources|).funcs, LastDef(EventsOf(sources, |sources|), fqn);
      && (fqn in funcs <==> exists a: nat, def, above :: DefinedAs(sources, a, fqn, def, above))
      && (fqn in funcs ==>
            && last.Some? && Registers(last.value, funcs[fqn])
            && exists a: nat :: DefinedAs(sources, a, fqn, last.value.def, last.value.above)
                                && last.value.file == sources[a].file)
  {
    var events, d := EventsOf(sources, |sources|), Built(sources, |sources|);
    var last := LastDef(events, fqn);
    BuiltRecordsEvents(sources, |sources|);
    assert Latest(EMPTY, last, d, fqn);
    LastDefIn(events, fqn);
    if last.Some? {
      DefinitionEvents(sources, last.value);
    }
    forall a: nat, def, above | DefinedAs(sources, a, fqn, def, above) ensures fqn in d.funcs {
      DefinitionEvents(sources, DefEvent(fqn, sources[a].file, def, above));
    }
  }

  /** Only this definition registers the name. */
  ghost predicate OnlyDefinition(sources: seq<Source>, a: nat, fqn: FQN, def: Node, above: seq<Child>) {
    && DefinedAs(sources, a, fqn, def, above)
    && forall b: nat, d, w :: DefinedAs(sources, b, fqn, d, w) ==>
         sources[b].file == sources[a].file && d == def && w == above
  }

  /** A function that is defined once is registered with the place of its definition and the
      names of the decorators written above it, in order. */
  lemma OneDefinition(sources: seq<Source>, a: nat, fqn: FQN, def: Node, above: seq<Child>)
    requires OnlyDefinition(sources, a, fqn, def, above)
    ensures fqn in Built(sources, |sources|).funcs
    ensures
      var fn := Built(sources, |sources|).funcs[fqn];
      && fn.fqn == fqn && fn.file == sources[a].file && fn.line == def.start.row + 1
      && NamesWritten(above, fn.decorators)
  {
    RegisteredAsWritten(sources, fqn);
    var last := LastDef(EventsOf(sources, |sources|), fqn).value;
    LastDefIn(EventsOf(sources, |sources|), fqn);
  }

  /** One of the decorators written there is named as the matcher asks. */
  ghost predicate WrittenMatch(m: Matcher, above: seq<Child>) {
    exists i, name :: 0 <= i < |above| && above[i].node.kind == Decorator
                      && NamesDecorator(above[i].node, name) && MatchesDecorator(m, name)
  }

  lemma WrittenIsMatched(m: Matcher, above: seq<Child>, names: seq<string>)
    requires NamesWritten(above, names)
    ensures WrittenMatch(m, above) <==> exists name :: name in names && MatchesDecorator(m, name)
  {
    var places :| DecoratorPlaces(above, places) && NamesAt(above, places, names);
    if i, name :| 0 <= i < |above| && above[i].node.kind == Decorator && NamesDecorator(above[i].node, name)
                  && MatchesDecorator(m, name) {
      NameOfPlace(above, places, names, i, name);
    }
    if name :| name in names && MatchesDecorator(m, name) {
      var i := PlaceOfName(above, places, names, name);
    }
  }

  lemma NameOfPlace(above: seq<Child>, places: seq<nat>, names: seq<string>, i: nat, name: string)
    requires DecoratorPlaces(above, places) && NamesAt(above, places, names)
    requires i < |above| && above[i].node.kind == Decorator && NamesDecorator(above[i].node, name)
    ensures name in names
  {
    assert i in places;
    var j :| 0 <= j < |places| && places[j] == i;
    assert names[j] == name;
  }

  lemma PlaceOfName(above: seq<Child>, places: seq<nat>, names: seq<string>, name: string) returns (i: nat)
    requires DecoratorPlaces(above, places) && NamesAt(above, places, names) && name in names
    ensures i < |above| && above[i].node.kind == Decorator && NamesDecorator(above[i].node, name)
  {
    var j :| 0 <= j < |names| && names[j] == name;
    assert places[j] in places;
    i := places[j];
  }

  /** From source to guard: in the built graph a function counts as decorated exactly when a
      matching decorator is written above its definition. */
  lemma DecoratedAsWritten(sources: seq<Source>, a: nat, fqn: FQN, def: Node, above: seq<Child>, m: Matcher)
    requires OnlyDefinition(sources, a, fqn, def, above)
    ensures Decorated(Built(sources, |sources|), m, fqn) <==> WrittenMatch(m, above)
  {
    OneDefinition(sources, a, fqn, def, above);
    WrittenIsMatched(m, above, Built(sources, |sources|).funcs[fqn].decorators);
  }

  /** Nothing that reaches a function with a guard written above it violates. */
  lemma WrittenGuardProtects(sources: seq<Source>, a: nat, fqn: FQN, def: Node, above: seq<Child>, p: Policy, g: FQN)
    requires OnlyDefinition(sources, a, fqn, def, above) && WrittenMatch(p.guard, above)
    requires CanReach(Built(sources, |sources|), g, fqn)
    ensures !Violates(Built(sources, |sources|), p, g)
  {
    DecoratedAsWritten(sources, a, fqn, def, above, p.guard);
    assert Guarded(Built(sources, |sources|), p.guard, fqn);
  }
}
