/** Every call site in a built graph carries a node of the tree of its own file. */
module ParsedTrees {
  import opened Text
  import opened Syntax
  import opened CallGraph
  import PythonWalk
  import PythonGraph
  import GB = GoBuild
  import GO = GoOrder

  /** Nodes with the files they belong to. */
  type Trees = iset<(File, Node)>

  ghost predicate ClosedTrees(trees: Trees) {
    forall file, n, c :: (file, n) in trees && c in n.children ==> (file, c.node) in trees
  }

  ghost predicate SitesFrom(trees: Trees, d: Snapshot) {
    forall f, s :: s in Bucket(d.calls, f) && s.node.Some? ==> (s.file, s.node.value) in trees
  }

  lemma CalledFrom(trees: Trees, u: PythonWalk.Unit, n: Node, cur: FQN, st: PythonWalk.Walked)
    requires (u.file, n) in trees && SitesFrom(trees, st.graph)
    ensures SitesFrom(trees, PythonWalk.Called(u, n, cur, st).graph)
  {
    var after := PythonWalk.Called(u, n, cur, st).graph;
    forall f, s | s in Bucket(after.calls, f) && s.node.Some? ensures (s.file, s.node.value) in trees {
      if s !in Bucket(st.graph.calls, f) {
        assert s.node == Some(n) && s.file == u.file;
      }
    }
  }

  lemma ChildFrom(trees: Trees, file: File, n: Node, i: nat)
    requires ClosedTrees(trees) && (file, n) in trees && i < |n.children|
    ensures (file, n.children[i].node) in trees
  {
    assert n.children[i] in n.children;
  }

  // ---------------------------------------------------------------- Python

  /** The walk records sites of the tree it walks, and no others. */
  lemma {:induction false} WalkFrom(trees: Trees, u: PythonWalk.Unit, n: Node, isCallee: bool, scope: seq<string>,
                                    cur: FQN, st: PythonWalk.Walked)
    requires ClosedTrees(trees) && (u.file, n) in trees && SitesFrom(trees, st.graph)
    ensures SitesFrom(trees, PythonWalk.Walk(u, n, isCallee, scope, cur, st).graph)
    decreases n, |n.children| + 2
  {
    match n.kind
    case ImportStatement =>
    case ImportFromStatement =>
    case DecoratedDefinition =>
      var i := PythonWalk.InnerIn(n.children, |n.children|);
      if i >= 0 {
        var inner := n.children[i].node;
        ChildFrom(trees, u.file, n, i);
        if inner.kind == FunctionDefinition {
          FunctionFrom(trees, u, inner, PythonWalk.DecoratorsIn(n.children, |n.children|), scope, cur, st);
        } else {
          ClassFrom(trees, u, inner, scope, cur, st);
        }
      }
    case ClassDefinition => ClassFrom(trees, u, n, scope, cur, st);
    case FunctionDefinition => FunctionFrom(trees, u, n, [], scope, cur, st);
    case Call =>
      CalledFrom(trees, u, n, cur, st);
      FirstFrom(trees, u, n, |n.children|, scope, cur, PythonWalk.Called(u, n, cur, st));
    case Attribute =>
      FirstFrom(trees, u, n, |n.children|, scope, cur, if isCallee then st else PythonWalk.Accessed(u, n, cur, st));
    case _ => FirstFrom(trees, u, n, |n.children|, scope, cur, st);
  }

  lemma {:induction false} FirstFrom(trees: Trees, u: PythonWalk.Unit, n: Node, k: nat, scope: seq<string>,
                                     cur: FQN, st: PythonWalk.Walked)
    requires k <= |n.children| && ClosedTrees(trees) && (u.file, n) in trees && SitesFrom(trees, st.graph)
    ensures SitesFrom(trees, PythonWalk.WalkFirst(u, n, k, scope, cur, st).graph)
    decreases n, k
  {
    if k > 0 {
      FirstFrom(trees, u, n, k - 1, scope, cur, st);
      ChildFrom(trees, u.file, n, k - 1);
      WalkFrom(trees, u, n.children[k - 1].node, PythonWalk.IsCallee(n, k - 1), scope, cur,
               PythonWalk.WalkFirst(u, n, k - 1, scope, cur, st));
    }
  }

  lemma {:induction false} ClassFrom(trees: Trees, u: PythonWalk.Unit, n: Node, scope: seq<string>, cur: FQN,
                                     st: PythonWalk.Walked)
    requires ClosedTrees(trees) && (u.file, n) in trees && SitesFrom(trees, st.graph)
    ensures SitesFrom(trees, PythonWalk.WalkClass(u, n, scope, cur, st).graph)
    decreases n, |n.children| + 1
  {
    var name, body := n.ByField(NameField), n.ByField(BodyField);
    if name.Some? && body.Some? {
      ChildFrom(trees, u.file, n, FieldIndex(n.children, BodyField));
      FirstFrom(trees, u, body.value, |body.value.children|, scope + [name.value.text], cur, st);
    }
  }

  lemma {:induction false} FunctionFrom(trees: Trees, u: PythonWalk.Unit, n: Node, decorators: seq<string>,
                                        scope: seq<string>, cur: FQN, st: PythonWalk.Walked)
    requires ClosedTrees(trees) && (u.file, n) in trees && SitesFrom(trees, st.graph)
    ensures SitesFrom(trees, PythonWalk.WalkFunction(u, n, decorators, scope, cur, st).graph)
    decreases n, |n.children| + 1
  {
    var name, body := n.ByField(NameField), n.ByField(BodyField);
    if name.Some? && body.Some? {
      var fqn := PythonWalk.FunctionName(u.mod, scope, name.value.text);
      ChildFrom(trees, u.file, n, FieldIndex(n.children, BodyField));
      FirstFrom(trees, u, body.value, |body.value.children|, scope + [name.value.text], fqn,
                PythonWalk.Defined(u, n, fqn, decorators, st));
    }
  }

  lemma {:induction false} PythonFrom(trees: Trees, sources: seq<PythonGraph.Source>, k: nat)
    requires k <= |sources| && ClosedTrees(trees) && forall s :: s in sources ==> (s.file, s.root) in trees
    ensures SitesFrom(trees, PythonGraph.Built(sources, k))
  {
    if k > 0 {
      PythonFrom(trees, sources, k - 1);
      var s := sources[k - 1];
      WalkFrom(trees, PythonGraph.UnitOf(s), s.root, false, [], "",
               PythonWalk.Walked(map[], PythonGraph.Built(sources, k - 1)));
    }
  }

  // ---------------------------------------------------------------- Go

  /** The nodes of the calls in an expression. */
  ghost predicate GoExprFrom(trees: Trees, file: File, e: GB.Expr) {
    match e
    case Ident(_) => true
    case Selector(_, operand, _, _) => GoExprFrom(trees, file, operand)
    case CallExpr(_, fn, args, node) =>
      (file, node) in trees && GoExprFrom(trees, file, fn)
      && forall i :: 0 <= i < |args| ==> GoExprFrom(trees, file, args[i])
    case ShortVar(_, lhs, rhs) =>
      && (forall i :: 0 <= i < |lhs| ==> GoExprFrom(trees, file, lhs[i]))
      && (forall i :: 0 <= i < |rhs| ==> GoExprFrom(trees, file, rhs[i]))
    case Inner(_, parts) => forall i :: 0 <= i < |parts| ==> GoExprFrom(trees, file, parts[i])
  }

  ghost predicate GoDeclFrom(trees: Trees, file: File, d: GB.Decl) {
    match d
    case ImportDecl(_) => true
    case FuncDecl(_, _, _, _, _, body, _) => forall i :: 0 <= i < |body| ==> GoExprFrom(trees, file, body[i])
    case OtherDecl(e) => GoExprFrom(trees, file, e)
  }

  ghost predicate EventsFrom(trees: Trees, events: seq<GB.Event>) {
    forall x :: x in events && x.CallEvent? && x.site.node.Some? ==> (x.site.file, x.site.node.value) in trees
  }

  lemma {:induction false} ExprEventsFrom(trees: Trees, env: GB.Env, e: GB.Expr, isCallee: bool,
                                          locals: Option<GB.Locals>)
    requires GoExprFrom(trees, env.f.file, e)
    ensures EventsFrom(trees, GB.WalkExpr(env, e, isCallee, locals).events)
    decreases e, 0
  {
    match e
    case Ident(_) =>
    case Selector(_, operand, _, _) => ExprEventsFrom(trees, env, operand, false, locals);
    case CallExpr(_, fn, args, _) =>
      ExprEventsFrom(trees, env, fn, true, locals);
      ExprsEventsFrom(trees, env, args, |args|, GB.WalkExpr(env, fn, true, locals).locals);
    case ShortVar(_, lhs, rhs) =>
      var start := GB.Inferred(env, e, locals);
      ExprsEventsFrom(trees, env, lhs, |lhs|, start);
      ExprsEventsFrom(trees, env, rhs, |rhs|, GB.WalkExprs(env, lhs, |lhs|, start).locals);
    case Inner(_, parts) => ExprsEventsFrom(trees, env, parts, |parts|, locals);
  }

  lemma {:induction false} ExprsEventsFrom(trees: Trees, env: GB.Env, es: seq<GB.Expr>, k: nat,
                                           locals: Option<GB.Locals>)
    requires k <= |es| && forall i :: 0 <= i < |es| ==> GoExprFrom(trees, env.f.file, es[i])
    ensures EventsFrom(trees, GB.WalkExprs(env, es, k, locals).events)
    decreases es, k
  {
    if k > 0 {
      ExprsEventsFrom(trees, env, es, k - 1, locals);
      ExprEventsFrom(trees, env, es[k - 1], false, GB.WalkExprs(env, es, k - 1, locals).locals);
    }
  }

  lemma DeclEventsFrom(trees: Trees, f: GB.GoFile, i: nat, funcs: GB.Funcs)
    requires i < |f.decls| && GoDeclFrom(trees, f.file, f.decls[i])
    ensures EventsFrom(trees, GO.DeclEvents(f, i, funcs))
  {
    var imports := GO.ImportsBefore(f, i);
    match f.decls[i]
    case ImportDecl(_) =>
    case FuncDecl(name, recv, recvType, params, _, body, _) =>
      var locals := GB.Seeded(f.mod, imports, params, GB.Seeded(f.mod, imports, recv, map[]));
      var env := GB.Env(f, imports, funcs, GB.ComposeName(f.mod, name, recvType));
      ExprsEventsFrom(trees, env, body, |body|, Some(locals));
    case OtherDecl(e) => ExprEventsFrom(trees, GB.Env(f, imports, funcs, ""), e, false, None);
  }

  lemma {:induction false} FirstEventsFrom(trees: Trees, f: GB.GoFile, k: nat, funcs: GB.Funcs)
    requires k <= |f.decls| && forall d :: d in f.decls ==> GoDeclFrom(trees, f.file, d)
    ensures EventsFrom(trees, GO.FirstEvents(f, k, funcs))
  {
    if k > 0 {
      FirstEventsFrom(trees, f, k - 1, funcs);
      DeclEventsFrom(trees, f, k - 1, funcs);
    }
  }

  lemma {:induction false} AllEventsFrom(trees: Trees, files: seq<GB.GoFile>, k: nat, funcs: GB.Funcs)
    requires k <= |files| && forall f, d :: f in files && d in f.decls ==> GoDeclFrom(trees, f.file, d)
    ensures EventsFrom(trees, GO.AllEvents(files, k, funcs))
  {
    if k > 0 {
      AllEventsFrom(trees, files, k - 1, funcs);
      FirstEventsFrom(trees, files[k - 1], |files[k - 1].decls|, funcs);
    }
  }

  /** Both phases record sites of the files only. */
  lemma GoFrom(trees: Trees, files: seq<GB.GoFile>)
    requires forall f, d :: f in files && d in f.decls ==> GoDeclFrom(trees, f.file, d)
    ensures SitesFrom(trees, GB.Built(files))
  {
    var events := GO.AllEvents(files, |files|, GB.PhaseA(files, |files|));
    AllEventsFrom(trees, files, |files|, GB.PhaseA(files, |files|));
    forall f, s | s in Bucket(GB.Built(files).calls, f) && s.node.Some? ensures (s.file, s.node.value) in trees {
      GO.BuiltBuckets(files, f);
      GO.PickedHas(GO.CallOf(f), events, s);
    }
  }
}
