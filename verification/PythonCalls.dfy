/** Calls of imported names in the built Python graph: from the import statement to an edge
    of the call graph. */
module PythonCalls {
  import opened Text
  import opened Syntax
  import opened CallGraph
  import opened Reachability
  import opened Solver
  import opened RelativeImports
  import opened ModulePaths
  import opened ImportTargets
  import opened PythonWalk
  import opened PythonGraph
  import opened PythonDefinitions

  // ---------------------------------------------------------------- what binds a name

  /** The child of an import statement binds `name`. */
  predicate ImportBinds(c: Node, name: string) {
    || (c.kind == DottedName && Split(c.text, '.')[0] == name)
    || (c.kind == AliasedImport && AliasIs(c, name))
  }

  predicate AliasIs(c: Node, name: string) {
    var alias := c.ByField(AliasField);
    alias.Some? && alias.value.text == name
  }

  predicate FromBinds(c: Node, name: string) {
    || (c.kind == DottedName && c.text == name)
    || (c.kind == AliasedImport && AliasIs(c, name))
  }

  /** The statement itself does not bind `name`. */
  predicate LeavesName(n: Node, name: string) {
    if n.kind == ImportStatement then forall i :: 0 <= i < |n.children| ==> !ImportBinds(n.children[i].node, name)
    else if n.kind == ImportFromStatement then
      forall i :: 0 <= i < |n.children| && i != FieldIndex(n.children, ModuleNameField) ==>
        !FromBinds(n.children[i].node, name)
    else true
  }

  /** No import statement inside the tree binds `name`. */
  predicate Keeps(n: Node, name: string) {
    LeavesName(n, name) && forall i :: 0 <= i < |n.children| ==> Keeps(n.children[i].node, name)
  }

  predicate FirstKeep(n: Node, k: nat, name: string)
    requires k <= |n.children|
  {
    forall i :: 0 <= i < k ==> Keeps(n.children[i].node, name)
  }

  lemma FieldKeeps(n: Node, field: Field, name: string)
    requires Keeps(n, name) && n.ByField(field).Some?
    ensures var part := n.ByField(field).value; FirstKeep(part, |part.children|, name)
  {
    assert Keeps(n.children[FieldIndex(n.children, field)].node, name);
  }

  /** The name stands for `target`, or for nothing imported. */
  predicate Bound(imports: map<string, FQN>, name: string, target: Option<FQN>) {
    if target.Some? then name in imports && imports[name] == target.value else name !in imports
  }

  lemma {:induction false} FromKeeps(children: seq<Child>, from: nat, k: nat, skip: nat, mod: string,
                                     imports: map<string, FQN>, name: string, target: Option<FQN>)
    requires from <= k <= |children| && Bound(FromBindings(children, from, skip, mod, imports), name, target)
    requires forall i :: from <= i < k && i != skip ==> !FromBinds(children[i].node, name)
    ensures Bound(FromBindings(children, k, skip, mod, imports), name, target)
    decreases k
  {
    if from < k {
      FromKeeps(children, from, k - 1, skip, mod, imports, name, target);
      assert k - 1 != skip ==> !FromBinds(children[k - 1].node, name);
    }
  }

  lemma StatementKeeps(u: Unit, n: Node, imports: map<string, FQN>, name: string, target: Option<FQN>)
    requires n.kind == ImportStatement || n.kind == ImportFromStatement
    requires Keeps(n, name) && Bound(imports, name, target)
    ensures Bound(if n.kind == ImportStatement then ImportBindings(n.children, |n.children|, imports)
                  else FromImported(u, n, imports), name, target)
  {
    if n.kind == ImportStatement {
      ImportKeepsFrom(n.children, 0, |n.children|, imports, name, target);
    } else {
      var at := FieldIndex(n.children, ModuleNameField);
      if at < |n.children| {
        FromKeeps(n.children, 0, |n.children|, at, ModuleName(u.pkg, n.children[at].node), imports, name, target);
      }
    }
  }

  /** The module that a `from` statement imports from; "" when there is none. */
  function ImportedModule(u: Unit, n: Node): string {
    var at := FieldIndex(n.children, ModuleNameField);
    if at < |n.children| then ModuleName(u.pkg, n.children[at].node) else ""
  }

  /** Child `c` of the import statement gives `name` the meaning `target`: a plain import the
      whole dotted name, a `from` import the name below the module, an alias likewise. */
  predicate BindsTo(u: Unit, n: Node, c: nat, name: string, target: FQN) {
    && c < |n.children|
    && var x := n.children[c].node;
       if n.kind == ImportStatement then
         || (x.kind == DottedName && name == Split(x.text, '.')[0] && target == x.text)
         || (x.kind == AliasedImport && AliasIs(x, name) && x.ByField(NameField).Some?
             && target == x.ByField(NameField).value.text)
       else
         && n.kind == ImportFromStatement && c != FieldIndex(n.children, ModuleNameField)
         && ImportedModule(u, n) != ""
         && (|| (x.kind == DottedName && name == x.text && target == ImportedModule(u, n) + "." + x.text)
             || (x.kind == AliasedImport && AliasIs(x, name) && x.ByField(NameField).Some?
                 && target == ImportedModule(u, n) + "." + x.ByField(NameField).value.text))
  }

  /** No child of the statement from `c` on binds `name`. */
  predicate LeavesFrom(n: Node, c: nat, name: string) {
    forall i :: c <= i < |n.children| ==>
      if n.kind == ImportStatement then !ImportBinds(n.children[i].node, name)
      else i != FieldIndex(n.children, ModuleNameField) ==> !FromBinds(n.children[i].node, name)
  }

  /** The statement gives `name` the meaning `target` at child `c`, and no other one after it. */
  predicate Imports(u: Unit, n: Node, c: nat, name: string, target: FQN) {
    && (n.kind == ImportStatement || n.kind == ImportFromStatement)
    && BindsTo(u, n, c, name, target) && LeavesFrom(n, c + 1, name)
  }

  lemma {:induction false} ImportKeepsFrom(children: seq<Child>, from: nat, k: nat, imports: map<string, FQN>,
                                           name: string, target: Option<FQN>)
    requires from <= k <= |children| && Bound(ImportBindings(children, from, imports), name, target)
    requires forall i :: from <= i < k ==> !ImportBinds(children[i].node, name)
    ensures Bound(ImportBindings(children, k, imports), name, target)
    decreases k
  {
    if from < k {
      ImportKeepsFrom(children, from, k - 1, imports, name, target);
      assert !ImportBinds(children[k - 1].node, name);
    }
  }

  lemma ImportsBind(u: Unit, n: Node, c: nat, name: string, target: FQN, imports: map<string, FQN>)
    requires Imports(u, n, c, name, target)
    ensures Bound(if n.kind == ImportStatement then ImportBindings(n.children, |n.children|, imports)
                  else FromImported(u, n, imports), name, Some(target))
  {
    if n.kind == ImportStatement {
      ImportKeepsFrom(n.children, c + 1, |n.children|, imports, name, Some(target));
    } else {
      var at := FieldIndex(n.children, ModuleNameField);
      FromKeeps(n.children, c + 1, |n.children|, at, ImportedModule(u, n), imports, name, Some(target));
    }
  }

  // ---------------------------------------------------------------- calls of a bound name

  /** The name that a call is resolved to when its first segment stands for `target`: what
      follows the first dot comes below the target; without a target the whole text comes
      below the module. */
  function Resolved(mod: FQN, target: Option<FQN>, raw: string): FQN {
    var parts := Split(raw, '.');
    if target.None? then mod + "." + raw
    else if |parts| == 1 then target.value
    else target.value + "." + Join(parts[1..], '.')
  }

  predicate CallsThrough(x: Event, name: string) {
    && x.CallEvent? && x.node.ByField(FunctionField).Some?
    && Split(x.node.ByField(FunctionField).value.text, '.')[0] == name
  }

  function SiteOf(u: Unit, x: Event, name: string, target: Option<FQN>): CallSite
    requires CallsThrough(x, name)
  {
    var raw := x.node.ByField(FunctionField).value.text;
    CallSite(x.caller, Resolved(u.mod, target, raw), raw, u.file, Some(x.node), x.node.start.row + 1)
  }

  ghost predicate Grows(d: Snapshot, after: Snapshot) {
    forall f, s :: s in Bucket(d.calls, f) ==> s in Bucket(after.calls, f)
  }

  ghost predicate Recorded(u: Unit, events: seq<Event>, name: string, target: Option<FQN>, d: Snapshot) {
    forall x :: x in events && CallsThrough(x, name) ==> SiteOf(u, x, name, target) in Bucket(d.calls, x.caller)
  }

  /** A step loses no call, and while it keeps the binding it records the calls through it. */
  ghost predicate Progress(u: Unit, keeps: bool, events: seq<Event>, name: string, target: Option<FQN>,
                           st: Walked, after: Walked)
  {
    && Grows(st.graph, after.graph)
    && (keeps && Bound(st.imports, name, target) ==>
          Bound(after.imports, name, target) && Recorded(u, events, name, target, after.graph))
  }

  lemma Both(u: Unit, keeps: bool, a: seq<Event>, b: seq<Event>, name: string, target: Option<FQN>,
             st: Walked, mid: Walked, after: Walked)
    requires Progress(u, keeps, a, name, target, st, mid) && Progress(u, keeps, b, name, target, mid, after)
    ensures Progress(u, keeps, a + b, name, target, st, after)
  {
  }

  lemma Weaker(u: Unit, less: bool, more: bool, events: seq<Event>, name: string, target: Option<FQN>,
               st: Walked, after: Walked)
    requires Progress(u, less, events, name, target, st, after) && (more ==> less)
    ensures Progress(u, more, events, name, target, st, after)
  {
  }

  /** A step that records no call and leaves the imports alone. */
  lemma Quiet(u: Unit, keeps: bool, events: seq<Event>, name: string, target: Option<FQN>, st: Walked, after: Walked)
    requires after.imports == st.imports && after.graph.calls == st.graph.calls
    requires forall x :: x in events ==> !x.CallEvent?
    ensures Progress(u, keeps, events, name, target, st, after)
  {
  }

  lemma CalledProgress(u: Unit, keeps: bool, n: Node, cur: FQN, name: string, target: Option<FQN>, st: Walked)
    ensures Progress(u, keeps, CallEvents(u, n, cur), name, target, st, Called(u, n, cur, st))
  {
  }

  lemma {:induction false} WalkProgress(u: Unit, n: Node, isCallee: bool, scope: seq<string>, cur: FQN,
                                        name: string, target: Option<FQN>, st: Walked)
    ensures Progress(u, Keeps(n, name), Events(u, n, isCallee, scope, cur), name, target, st,
                     Walk(u, n, isCallee, scope, cur, st))
    decreases n, |n.children| + 2
  {
    match n.kind {
      case ImportStatement => ImportProgress(u, n, isCallee, scope, cur, name, target, st);
      case ImportFromStatement => ImportProgress(u, n, isCallee, scope, cur, name, target, st);
      case DecoratedDefinition => DecoratedProgress(u, n, scope, cur, name, target, st);
      case ClassDefinition => ClassProgress(u, n, scope, cur, name, target, st);
      case FunctionDefinition => FunctionProgress(u, n, [], [], scope, cur, name, target, st);
      case Call => CallProgress(u, n, scope, cur, name, target, st);
      case Attribute => AttributeProgress(u, n, isCallee, scope, cur, name, target, st);
      case _ => OtherProgress(u, n, scope, cur, name, target, st);
    }
  }

  lemma ImportProgress(u: Unit, n: Node, isCallee: bool, scope: seq<string>, cur: FQN,
                       name: string, target: Option<FQN>, st: Walked)
    requires n.kind == ImportStatement || n.kind == ImportFromStatement
    ensures Progress(u, Keeps(n, name), [], name, target, st, Walk(u, n, isCallee, scope, cur, st))
  {
    if Keeps(n, name) && Bound(st.imports, name, target) {
      StatementKeeps(u, n, st.imports, name, target);
    }
  }

  lemma {:induction false} OtherProgress(u: Unit, n: Node, scope: seq<string>, cur: FQN,
                                         name: string, target: Option<FQN>, st: Walked)
    ensures Progress(u, Keeps(n, name), EventsFirst(u, n, |n.children|, scope, cur), name, target, st,
                     WalkFirst(u, n, |n.children|, scope, cur, st))
    decreases n, |n.children| + 1, 1
  {
    Quiet(u, Keeps(n, name), [], name, target, st, st);
    ChildrenProgress(u, n, [], scope, cur, name, target, st, st);
    assert [] + EventsFirst(u, n, |n.children|, scope, cur) == EventsFirst(u, n, |n.children|, scope, cur);
  }

  lemma {:induction false} CallProgress(u: Unit, n: Node, scope: seq<string>, cur: FQN,
                                        name: string, target: Option<FQN>, st: Walked)
    ensures Progress(u, Keeps(n, name), CallEvents(u, n, cur) + EventsFirst(u, n, |n.children|, scope, cur), name, target,
                     st, WalkFirst(u, n, |n.children|, scope, cur, Called(u, n, cur, st)))
    decreases n, |n.children| + 1, 1
  {
    CalledProgress(u, Keeps(n, name), n, cur, name, target, st);
    ChildrenProgress(u, n, CallEvents(u, n, cur), scope, cur, name, target, st, Called(u, n, cur, st));
  }

  lemma {:induction false} AttributeProgress(u: Unit, n: Node, isCallee: bool, scope: seq<string>, cur: FQN,
                                             name: string, target: Option<FQN>, st: Walked)
    requires n.kind == Attribute
    ensures Progress(u, Keeps(n, name), Events(u, n, isCallee, scope, cur), name, target, st,
                     Walk(u, n, isCallee, scope, cur, st))
    decreases n, |n.children| + 1, 1
  {
    var own := ReadEvents(u, n, isCallee, cur);
    var mid := if isCallee then st else Accessed(u, n, cur, st);
    Quiet(u, Keeps(n, name), own, name, target, st, mid);
    ChildrenProgress(u, n, own, scope, cur, name, target, st, mid);
  }

  lemma {:induction false} ChildrenProgress(u: Unit, n: Node, own: seq<Event>, scope: seq<string>, cur: FQN,
                                            name: string, target: Option<FQN>, st: Walked, mid: Walked)
    requires Progress(u, Keeps(n, name), own, name, target, st, mid)
    ensures Progress(u, Keeps(n, name), own + EventsFirst(u, n, |n.children|, scope, cur), name, target, st,
                     WalkFirst(u, n, |n.children|, scope, cur, mid))
    decreases n, |n.children| + 1, 0
  {
    var after := WalkFirst(u, n, |n.children|, scope, cur, mid);
    var events := EventsFirst(u, n, |n.children|, scope, cur);
    FirstProgress(u, n, |n.children|, scope, cur, name, target, mid);
    Weaker(u, FirstKeep(n, |n.children|, name), Keeps(n, name), events, name, target, mid, after);
    Both(u, Keeps(n, name), own, events, name, target, st, mid, after);
  }

  lemma {:induction false} DecoratedProgress(u: Unit, n: Node, scope: seq<string>, cur: FQN,
                                             name: string, target: Option<FQN>, st: Walked)
    requires n.kind == DecoratedDefinition
    ensures Progress(u, Keeps(n, name), Events(u, n, false, scope, cur), name, target, st,
                     Walk(u, n, false, scope, cur, st))
    ensures Events(u, n, true, scope, cur) == Events(u, n, false, scope, cur)
    ensures Walk(u, n, true, scope, cur, st) == Walk(u, n, false, scope, cur, st)
    decreases n, |n.children| + 1
  {
    var i := InnerIn(n.children, |n.children|);
    var after, events := Walk(u, n, false, scope, cur, st), Events(u, n, false, scope, cur);
    if i < 0 {
      Quiet(u, Keeps(n, name), events, name, target, st, after);
    } else {
      var inner := n.children[i].node;
      if inner.kind == FunctionDefinition {
        FunctionProgress(u, inner, n.children, DecoratorsIn(n.children, |n.children|), scope, cur, name, target, st);
      } else {
        ClassProgress(u, inner, scope, cur, name, target, st);
      }
      Weaker(u, Keeps(inner, name), Keeps(n, name), events, name, target, st, after);
    }
  }

  lemma {:induction false} FirstProgress(u: Unit, n: Node, k: nat, scope: seq<string>, cur: FQN,
                                         name: string, target: Option<FQN>, st: Walked)
    requires k <= |n.children|
    ensures Progress(u, FirstKeep(n, k, name), EventsFirst(u, n, k, scope, cur), name, target, st,
                     WalkFirst(u, n, k, scope, cur, st))
    decreases n, k
  {
    if k == 0 {
      Quiet(u, true, [], name, target, st, st);
    } else {
      FirstProgress(u, n, k - 1, scope, cur, name, target, st);
      NextProgress(u, n, k, scope, cur, name, target, st);
    }
  }

  lemma {:induction false} NextProgress(u: Unit, n: Node, k: nat, scope: seq<string>, cur: FQN,
                                        name: string, target: Option<FQN>, st: Walked)
    requires 0 < k <= |n.children|
    requires Progress(u, FirstKeep(n, k - 1, name), EventsFirst(u, n, k - 1, scope, cur), name, target, st,
                      WalkFirst(u, n, k - 1, scope, cur, st))
    ensures Progress(u, FirstKeep(n, k, name), EventsFirst(u, n, k, scope, cur), name, target, st,
                     WalkFirst(u, n, k, scope, cur, st))
    decreases n, k, 0
  {
    var mid, child := WalkFirst(u, n, k - 1, scope, cur, st), n.children[k - 1].node;
    var before, last := EventsFirst(u, n, k - 1, scope, cur), Events(u, child, IsCallee(n, k - 1), scope, cur);
    var after := Walk(u, child, IsCallee(n, k - 1), scope, cur, mid);
    WalkProgress(u, child, IsCallee(n, k - 1), scope, cur, name, target, mid);
    Weaker(u, FirstKeep(n, k - 1, name), FirstKeep(n, k, name), before, name, target, st, mid);
    Weaker(u, Keeps(child, name), FirstKeep(n, k, name), last, name, target, mid, after);
    Both(u, FirstKeep(n, k, name), before, last, name, target, st, mid, after);
  }

  lemma {:induction false} ClassProgress(u: Unit, n: Node, scope: seq<string>, cur: FQN,
                                         name: string, target: Option<FQN>, st: Walked)
    ensures Progress(u, Keeps(n, name), EventsOfClass(u, n, scope, cur), name, target, st,
                     WalkClass(u, n, scope, cur, st))
    decreases n, |n.children| + 1
  {
    var className, body := n.ByField(NameField), n.ByField(BodyField);
    var after, events := WalkClass(u, n, scope, cur, st), EventsOfClass(u, n, scope, cur);
    if className.None? || body.None? {
      Quiet(u, Keeps(n, name), events, name, target, st, after);
    } else {
      var k := |body.value.children|;
      FirstProgress(u, body.value, k, scope + [className.value.text], cur, name, target, st);
      if Keeps(n, name) {
        FieldKeeps(n, BodyField, name);
      }
      Weaker(u, FirstKeep(body.value, k, name), Keeps(n, name), events, name, target, st, after);
    }
  }

  lemma {:induction false} FunctionProgress(u: Unit, n: Node, above: seq<Child>, decorators: seq<string>,
                                            scope: seq<string>, cur: FQN, name: string, target: Option<FQN>, st: Walked)
    ensures Progress(u, Keeps(n, name), EventsOfFunction(u, n, above, scope), name, target, st,
                     WalkFunction(u, n, decorators, scope, cur, st))
    decreases n, |n.children| + 1
  {
    var fname, body := n.ByField(NameField), n.ByField(BodyField);
    var after, events := WalkFunction(u, n, decorators, scope, cur, st), EventsOfFunction(u, n, above, scope);
    if fname.None? || body.None? {
      Quiet(u, Keeps(n, name), events, name, target, st, after);
    } else {
      var fqn := FunctionName(u.mod, scope, fname.value.text);
      var k, inner := |body.value.children|, scope + [fname.value.text];
      var mid, rest := Defined(u, n, fqn, decorators, st), EventsFirst(u, body.value, k, inner, fqn);
      Quiet(u, Keeps(n, name), [DefEvent(fqn, u.file, n, above)], name, target, st, mid);
      FirstProgress(u, body.value, k, inner, fqn, name, target, mid);
      if Keeps(n, name) {
        FieldKeeps(n, BodyField, name);
      }
      Weaker(u, FirstKeep(body.value, k, name), Keeps(n, name), rest, name, target, mid, after);
      Both(u, Keeps(n, name), [DefEvent(fqn, u.file, n, above)], rest, name, target, st, mid, after);
    }
  }

  // ---------------------------------------------------------------- one file

  /** From child `i` to child `k` the binding is kept and no call is lost. */
  lemma {:induction false} BoundUntil(u: Unit, n: Node, i: nat, k: nat, name: string, target: Option<FQN>, st: Walked)
    requires i <= k <= |n.children| && forall m :: i <= m < k ==> Keeps(n.children[m].node, name)
    requires Bound(WalkFirst(u, n, i, [], "", st).imports, name, target)
    ensures Bound(WalkFirst(u, n, k, [], "", st).imports, name, target)
    decreases k
  {
    if i < k {
      BoundUntil(u, n, i, k - 1, name, target, st);
      var mid := WalkFirst(u, n, k - 1, [], "", st);
      WalkProgress(u, n.children[k - 1].node, IsCallee(n, k - 1), [], "", name, target, mid);
    }
  }

  lemma {:induction false} GrowsUntil(u: Unit, n: Node, i: nat, k: nat, st: Walked)
    requires i <= k <= |n.children|
    ensures Grows(WalkFirst(u, n, i, [], "", st).graph, WalkFirst(u, n, k, [], "", st).graph)
    decreases k
  {
    if i < k {
      GrowsUntil(u, n, i, k - 1, st);
      WalkProgress(u, n.children[k - 1].node, IsCallee(n, k - 1), [], "", "", None, WalkFirst(u, n, k - 1, [], "", st));
    }
  }

  /** In a module, child `c` of statement `i` imports `target` as `name`, nothing up to
      statement `j` binds the name again, and `x` is a call through it in statement `j`. */
  ghost predicate CallsImported(s: Source, i: nat, c: nat, name: string, target: FQN, j: nat, x: Event) {
    && s.root.kind == Module && i < j < |s.root.children|
    && Imports(UnitOf(s), s.root.children[i].node, c, name, target)
    && (forall m :: i < m <= j ==> Keeps(s.root.children[m].node, name))
    && CallsThrough(x, name) && x in Events(UnitOf(s), s.root.children[j].node, IsCallee(s.root, j), [], "")
  }

  lemma BoundAfter(u: Unit, n: Node, i: nat, c: nat, name: string, target: FQN, st: Walked)
    requires i < |n.children| && Imports(u, n.children[i].node, c, name, target)
    ensures Bound(WalkFirst(u, n, i + 1, [], "", st).imports, name, Some(target))
  {
    ImportsBind(u, n.children[i].node, c, name, target, WalkFirst(u, n, i, [], "", st).imports);
  }

  lemma RecordedAt(u: Unit, n: Node, j: nat, f: string, target: Option<FQN>, x: Event, st: Walked)
    requires j < |n.children| && Keeps(n.children[j].node, f)
    requires Bound(WalkFirst(u, n, j, [], "", st).imports, f, target)
    requires CallsThrough(x, f) && x in Events(u, n.children[j].node, IsCallee(n, j), [], "")
    ensures SiteOf(u, x, f, target) in Bucket(WalkFirst(u, n, j + 1, [], "", st).graph.calls, x.caller)
  {
    WalkProgress(u, n.children[j].node, IsCallee(n, j), [], "", f, target, WalkFirst(u, n, j, [], "", st));
  }

  lemma FileRecords(s: Source, i: nat, c: nat, name: string, target: FQN, j: nat, x: Event, st: Walked)
    requires CallsImported(s, i, c, name, target, j, x)
    ensures SiteOf(UnitOf(s), x, name, Some(target))
         in Bucket(Walk(UnitOf(s), s.root, false, [], "", st).graph.calls, x.caller)
  {
    var u, n := UnitOf(s), s.root;
    BoundAfter(u, n, i, c, name, target, st);
    BoundUntil(u, n, i + 1, j, name, Some(target), st);
    RecordedAt(u, n, j, name, Some(target), x, st);
    GrowsUntil(u, n, j + 1, |n.children|, st);
    ModuleWalk(u, n, st);
  }

  lemma ModuleWalk(u: Unit, n: Node, st: Walked)
    requires n.kind == Module
    ensures Walk(u, n, false, [], "", st) == WalkFirst(u, n, |n.children|, [], "", st)
  {
  }

  // ---------------------------------------------------------------- all files

  lemma {:induction false} BuiltGrows(sources: seq<Source>, b: nat, k: nat)
    requires b <= k <= |sources|
    ensures Grows(Built(sources, b), Built(sources, k))
    decreases k
  {
    if b < k {
      BuiltGrows(sources, b, k - 1);
      var s := sources[k - 1];
      WalkProgress(UnitOf(s), s.root, false, [], "", "", None, Walked(map[], Built(sources, k - 1)));
    }
  }

  /** The built graph records a call through an imported name under the name below what was
      imported, wherever in the build the two files stand. */
  lemma {:induction false} ImportedCallRecorded(sources: seq<Source>, b: nat, i: nat, c: nat, name: string, target: FQN,
                                                j: nat, x: Event)
    requires b < |sources| && CallsImported(sources[b], i, c, name, target, j, x)
    ensures SiteOf(UnitOf(sources[b]), x, name, Some(target)) in Bucket(Built(sources, |sources|).calls, x.caller)
  {
    FileRecords(sources[b], i, c, name, target, j, x, Walked(map[], Built(sources, b)));
    KeptInBuild(sources, b, x.caller, SiteOf(UnitOf(sources[b]), x, name, Some(target)));
  }

  /** A call through a name that no import of its file binds is recorded under the name below
      its own module; imports of other files do not matter. */
  lemma {:induction false} LocalCallRecorded(sources: seq<Source>, b: nat, name: string, x: Event)
    requires b < |sources| && Keeps(sources[b].root, name) && CallsThrough(x, name)
    requires x in Events(UnitOf(sources[b]), sources[b].root, false, [], "")
    ensures SiteOf(UnitOf(sources[b]), x, name, None) in Bucket(Built(sources, |sources|).calls, x.caller)
  {
    WalkProgress(UnitOf(sources[b]), sources[b].root, false, [], "", name, None, Walked(map[], Built(sources, b)));
    KeptInBuild(sources, b, x.caller, SiteOf(UnitOf(sources[b]), x, name, None));
  }

  lemma {:induction false} KeptInBuild(sources: seq<Source>, b: nat, caller: FQN, site: CallSite)
    requires b < |sources|
    requires site in Bucket(Walk(UnitOf(sources[b]), sources[b].root, false, [], "", Walked(map[], Built(sources, b)))
                              .graph.calls, caller)
    ensures site in Bucket(Built(sources, |sources|).calls, caller)
  {
    BuiltNext(sources, b);
    BuiltGrows(sources, b + 1, |sources|);
  }

  lemma {:induction false} BuiltNext(sources: seq<Source>, b: nat)
    requires b < |sources|
    ensures Built(sources, b + 1)
         == Walk(UnitOf(sources[b]), sources[b].root, false, [], "", Walked(map[], Built(sources, b))).graph
  {
  }

  /** A recorded call of a name under which some file defines a function is an edge. */
  lemma SiteGivesEdge(sources: seq<Source>, caller: FQN, s: CallSite)
    requires caller != "" && s in Bucket(Built(sources, |sources|).calls, caller)
    requires exists a: nat, def, above :: DefinedAs(sources, a, s.callee, def, above)
    ensures Edge(CalleeMap(Built(sources, |sources|)), caller, s.callee)
  {
    RegisteredAsWritten(sources, s.callee);
    EdgeIsCall(Built(sources, |sources|), caller, s.callee);
  }

  /** From import to edge: a file calls, through an imported name, what some file of the build
      defines under the resolved name, so the caller has an edge to the definition. */
  lemma {:induction false} ImportedCallEdge(sources: seq<Source>, b: nat, i: nat, c: nat, name: string, target: FQN,
                                            j: nat, x: Event, a: nat, def: Node, above: seq<Child>)
    requires b < |sources| && CallsImported(sources[b], i, c, name, target, j, x) && x.caller != ""
    requires
      var raw := x.node.ByField(FunctionField).value.text;
      DefinedAs(sources, a, Resolved(sources[b].mod, Some(target), raw), def, above)
    ensures Edge(CalleeMap(Built(sources, |sources|)), x.caller,
                 Resolved(sources[b].mod, Some(target), x.node.ByField(FunctionField).value.text))
  {
    ImportedCallRecorded(sources, b, i, c, name, target, j, x);
    SiteGivesEdge(sources, x.caller, SiteOf(UnitOf(sources[b]), x, name, Some(target)));
  }

  /** A call `f()` of a function of the same file is an edge when no import binds f. */
  lemma {:induction false} LocalCallEdge(sources: seq<Source>, b: nat, f: string, x: Event, def: Node, above: seq<Child>)
    requires b < |sources| && Keeps(sources[b].root, f) && CallsThrough(x, f) && x.caller != ""
    requires x in Events(UnitOf(sources[b]), sources[b].root, false, [], "")
    requires x.node.ByField(FunctionField).value.text == f && Meets(sources[b].root, [], f, def, above)
    ensures Edge(CalleeMap(Built(sources, |sources|)), x.caller, FunctionName(sources[b].mod, [], f))
  {
    LocalCallRecorded(sources, b, f, x);
    TopName(sources[b].mod, f);
    assert DefinedAs(sources, b, FunctionName(sources[b].mod, [], f), def, above);
    SiteGivesEdge(sources, x.caller, SiteOf(UnitOf(sources[b]), x, f, None));
  }

  lemma TopName(mod: FQN, f: string)
    ensures FunctionName(mod, [], f) == mod + "." + f
  {
    assert [] + [f] == [f];
  }

  // ---------------------------------------------------------------- relative imports

  predicate OnlyDots(s: string) {
    forall i :: 0 <= i < |s| ==> s[i] == '.'
  }

  /** The only child of this kind is child `i`. */
  predicate OnlyOfKind(children: seq<Child>, kind: Kind, i: nat) {
    i < |children| && forall k :: 0 <= k < |children| ==> (children[k].node.kind == kind <==> k == i)
  }

  /** The module is written as `up + 1` dots and then, unless `target` is empty, a dotted name. */
  predicate WritesClimb(mod: Node, up: nat, target: seq<string>, dots: nat, rest: nat) {
    && mod.kind == RelativeImport && OnlyOfKind(mod.children, ImportPrefix, dots)
    && OnlyDots(mod.children[dots].node.text) && |mod.children[dots].node.text| == up + 1
    && if target == [] then forall k :: 0 <= k < |mod.children| ==> mod.children[k].node.kind != DottedName
       else OnlyOfKind(mod.children, DottedName, rest) && mod.children[rest].node.text == Join(target, '.')
  }

  lemma {:induction false} CountDots(s: string)
    requires OnlyDots(s)
    ensures Count(s, '.') == |s|
  {
    if s != [] {
      CountDots(s[1..]);
    }
  }

  lemma {:induction false} PartsOfClimb(mod: Node, up: nat, target: seq<string>, dots: nat, rest: nat, k: nat)
    requires WritesClimb(mod, up, target, dots, rest) && k <= |mod.children|
    ensures RelativeParts(mod.children, k)
         == (if dots < k then up + 1 else 0, if target != [] && rest < k then Join(target, '.') else "")
  {
    if k > 0 {
      PartsOfClimb(mod, up, target, dots, rest, k - 1);
      CountDots(mod.children[dots].node.text);
      assert mod.children[k - 1].node.kind == ImportPrefix <==> k - 1 == dots;
    }
  }

  /** The statement is `from ...a.b import`, with `up + 1` dots. */
  ghost predicate ClimbsTo(n: Node, up: nat, target: seq<string>) {
    var at := FieldIndex(n.children, ModuleNameField);
    at < |n.children| && exists dots: nat, rest: nat :: WritesClimb(n.children[at].node, up, target, dots, rest)
  }

  lemma ClimbedModule(u: Unit, n: Node, up: nat, target: seq<string>)
    requires ClimbsTo(n, up, target)
    ensures ImportedModule(u, n) == RelativeModule(u.pkg, up + 1, Join(target, '.'))
  {
    var mod := n.children[FieldIndex(n.children, ModuleNameField)].node;
    var dots: nat, rest: nat :| WritesClimb(mod, up, target, dots, rest);
    PartsOfClimb(mod, up, target, dots, rest, |mod.children|);
  }

  /** The same for relative imports between files at known paths, `from ...a.b import g as f`
      or plain g, and then `f()`: from an anchored importer the call is an edge to the
      function g of the file that the import points at. */
  lemma {:induction false} RelativeImportEdge(sources: seq<Source>, b: nat, i: nat, c: nat, f: string, g: string,
                                              j: nat, x: Event, a: nat, def: Node, above: seq<Child>, prefix: string,
                                              dir: seq<string>, name: string, up: nat, target: seq<string>)
    requires b < |sources| && i < |sources[b].root.children| && ClimbsTo(sources[b].root.children[i].node, up, target)
    requires
      var mod := ImportedModule(UnitOf(sources[b]), sources[b].root.children[i].node);
      CallsImported(sources[b], i, c, f, mod + "." + g, j, x)
    requires x.caller != "" && x.node.ByField(FunctionField).value.text == f
    requires Path(dir + [name]) && ScanRoot(prefix) && Path(target) && Clean(target)
    requires sources[b].file.path == prefix + PythonPath(dir, name)
    requires sources[b].mod == PythonModule(PythonPath(dir, name))
    requires up <= |dir| && PythonAnchored(prefix, dir, name, up)
    requires a < |sources| && Meets(sources[a].root, [], g, def, above)
    requires IsModuleAt(sources[a].mod, Climb(dir, up) + target)
    ensures Edge(CalleeMap(Built(sources, |sources|)), x.caller, FunctionName(sources[a].mod, [], g))
  {
    var mod := sources[a].mod;
    ClimbedModule(UnitOf(sources[b]), sources[b].root.children[i].node, up, target);
    RelativeModuleNames(prefix, dir, name, up, target);
    TopName(mod, g);
    CallsWhole(sources[b].mod, x, f, mod + "." + g);
    assert DefinedAs(sources, a, mod + "." + g, def, above);
    ImportedCallEdge(sources, b, i, c, f, mod + "." + g, j, x, a, def, above);
  }

  lemma CallsWhole(mod: FQN, x: Event, f: string, target: FQN)
    requires CallsThrough(x, f) && x.node.ByField(FunctionField).value.text == f
    ensures Resolved(mod, Some(target), f) == target
  {
    SplitPlain(f, '.');
  }
}
