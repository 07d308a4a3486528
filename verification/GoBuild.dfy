/** The two-phase Go extractor: phase A registers every function with its return type,
    phase B walks the bodies with that knowledge. */
module GoBuild {
  import opened Text
  import opened Syntax
  import opened CallGraph

  // ---------------------------------------------------------------- abstract syntax

  datatype TypeExpr =
    | Named(name: string)                    // a type of the same package
    | Qualified(pkg: string, name: string)   // pkg.Type
    | Wrapping(parts: seq<TypeExpr>)         // pointer, slice, array, channel, parentheses
    | Unknown

  datatype ImportSpec = ImportSpec(alias: Alias, path: string)
  datatype Alias = NoAlias | Blank | Dot | Renamed(name: string)

  datatype Param = Param(names: seq<string>, ty: TypeExpr)

  datatype Expr =
    | Ident(text: string)
    | Selector(text: string, operand: Expr, field: string, line: int)
    | CallExpr(text: string, fn: Expr, args: seq<Expr>, node: Node)   // and its node in the tree
    | ShortVar(text: string, lhs: seq<Expr>, rhs: seq<Expr>)
    | Inner(text: string, parts: seq<Expr>)

  /** Function declarations stand at the top of a file only. */
  datatype Decl =
    | ImportDecl(specs: seq<ImportSpec>)
    | FuncDecl(name: string, recv: seq<Param>, recvType: string, params: seq<Param>, result: TypeExpr,
               body: seq<Expr>, line: int)
    | OtherDecl(expr: Expr)

  datatype GoFile = GoFile(file: File, mod: FQN, decls: seq<Decl>)

  type Imports = map<string, FQN>
  type Funcs = map<FQN, FuncNode>
  type Locals = map<string, string>

  // ---------------------------------------------------------------- names and types

  predicate IsVersion(seg: string) {
    |seg| >= 2 && seg[0] == 'v' && forall i :: 1 <= i < |seg| ==> '0' <= seg[i] <= '9'
  }

  /** The last segment that is neither empty nor a version. */
  function LastNameIn(parts: seq<string>): Option<string> {
    if parts == [] then None
    else
      var seg := parts[|parts| - 1];
      if seg == "" || IsVersion(seg) then LastNameIn(parts[..|parts| - 1]) else Some(seg)
  }

  function LastSegment(path: string): string {
    var parts := Split(path, '/');
    LastNameIn(parts).GetOr(parts[|parts| - 1])
  }

  function ImportedBy(spec: ImportSpec, imports: Imports): Imports {
    if spec.path == "" || spec.alias.Blank? || spec.alias.Dot? then imports
    else
      var alias := if spec.alias.Renamed? && spec.alias.name != "" then spec.alias.name else LastSegment(spec.path);
      imports[alias := spec.path]
  }

  function ImportedFirst(specs: seq<ImportSpec>, k: nat, imports: Imports): Imports
    requires k <= |specs|
  {
    if k == 0 then imports else ImportedBy(specs[k - 1], ImportedFirst(specs, k - 1, imports))
  }

  function ImportedAll(specs: seq<ImportSpec>, imports: Imports): Imports {
    ImportedFirst(specs, |specs|, imports)
  }

  function ComposeName(mod: FQN, name: string, recvType: string): FQN {
    Join((if mod != "" then [mod] else []) + (if recvType != "" then [recvType] else []) + [name], '.')
  }

  /** The canonical name of a type, or "" when it cannot be resolved. */
  function TypeName(mod: FQN, imports: Imports, t: TypeExpr): string
    decreases t, 0
  {
    match t
    case Named(name) => if mod != "" then mod + "." + name else name
    case Qualified(pkg, name) =>
      if pkg == "" || name == "" then ""
      else if pkg in imports then imports[pkg] + "." + name else pkg + "." + name
    case Wrapping(parts) => FirstTypeName(mod, imports, parts)
    case Unknown => ""
  }

  function FirstTypeName(mod: FQN, imports: Imports, parts: seq<TypeExpr>): string
    decreases parts, 1
  {
    if parts == [] then ""
    else
      var first := TypeName(mod, imports, parts[0]);
      if first != "" then first else FirstTypeName(mod, imports, parts[1..])
  }

  function BindAll(names: seq<string>, ty: string, locals: Locals): Locals {
    if names == [] then locals else BindAll(names[..|names| - 1], ty, locals)[names[|names| - 1] := ty]
  }

  /** Receiver and parameters with the types that resolve. */
  function Seeded(mod: FQN, imports: Imports, params: seq<Param>, locals: Locals): Locals {
    if params == [] then locals
    else
      var before, p := Seeded(mod, imports, params[..|params| - 1], locals), params[|params| - 1];
      var ty := TypeName(mod, imports, p.ty);
      if ty == "" then before else BindAll(p.names, ty, before)
  }

  function ResolveGoCallee(imports: Imports, mod: FQN, raw: string): FQN {
    var parts := Split(raw, '.');
    if parts[0] in imports then
      if |parts| == 1 then imports[parts[0]] else imports[parts[0]] + "." + Join(parts[1..], '.')
    else if mod == "" then raw
    else mod + "." + raw
  }

  // ---------------------------------------------------------------- phase A

  function NodeOf(f: GoFile, d: Decl, imports: Imports): FuncNode
    requires d.FuncDecl?
  {
    FuncNode(ComposeName(f.mod, d.name, d.recvType), f.file, d.line, [], TypeName(f.mod, imports, d.result))
  }

  datatype Found = Found(imports: Imports, funcs: Funcs)

  /** Imports and functions of the first `k` declarations. */
  function Discovered(f: GoFile, k: nat, funcs: Funcs): Found
    requires k <= |f.decls|
  {
    if k == 0 then Found(map[], funcs)
    else
      var before, d := Discovered(f, k - 1, funcs), f.decls[k - 1];
      match d
      case ImportDecl(specs) => before.(imports := ImportedAll(specs, before.imports))
      case FuncDecl(_, _, _, _, _, _, _) =>
        var node := NodeOf(f, d, before.imports);
        before.(funcs := before.funcs[node.fqn := node])
      case OtherDecl(_) => before
  }

  function PhaseA(files: seq<GoFile>, k: nat): Funcs
    requires k <= |files|
  {
    if k == 0 then map[] else Discovered(files[k - 1], |files[k - 1].decls|, PhaseA(files, k - 1)).funcs
  }

  // ---------------------------------------------------------------- phase B

  /** What a walk records, in order. */
  datatype Event = CallEvent(site: CallSite) | ReadEvent(access: FieldAccess)

  function Record(d: Snapshot, e: Event): Snapshot {
    match e
    case CallEvent(s) => d.(calls := Append(d.calls, s.caller, s))
    case ReadEvent(a) => d.(fields := Append(d.fields, a.caller, a))
  }

  function RecordAll(d: Snapshot, events: seq<Event>): Snapshot {
    if events == [] then d else Record(RecordAll(d, events[..|events| - 1]), events[|events| - 1])
  }

  /** What stays fixed while a body is walked. */
  datatype Env = Env(f: GoFile, imports: Imports, funcs: Funcs, cur: FQN)

  /** Local variable types flow through the body; `None` at module scope. */
  datatype Walked = Walked(locals: Option<Locals>, events: seq<Event>)

  function CallAt(env: Env, e: Expr, locals: Option<Locals>): CallSite
    requires e.CallExpr?
  {
    var raw := e.fn.text;
    var tracked := e.fn.Selector? && e.fn.operand.Ident? && locals.Some? && e.fn.operand.text in locals.value;
    var callee := if tracked then locals.value[e.fn.operand.text] + "." + e.fn.field
                  else ResolveGoCallee(env.imports, env.f.mod, raw);
    CallSite(env.cur, callee, raw, env.f.file, Some(e.node), e.node.Line())
  }

  function ReadAt(env: Env, e: Expr): FieldAccess
    requires e.Selector?
  {
    FieldAccess(env.cur, e.field, e.text, env.f.file, e.line)
  }

  function FirstIdent(es: seq<Expr>): (name: Option<string>)
    ensures name.Some? ==>
      exists i :: 0 <= i < |es| && es[i] == Ident(name.value) && forall k :: 0 <= k < i ==> !es[k].Ident?
    ensures name.None? ==> forall i :: 0 <= i < |es| ==> !es[i].Ident?
  {
    if es == [] then None else if es[0].Ident? then Some(es[0].text) else FirstIdent(es[1..])
  }

  /** `r := f()` gives the first name on the left the return type of `f`, when known. */
  function Inferred(env: Env, e: Expr, locals: Option<Locals>): Option<Locals>
    requires e.ShortVar?
  {
    if locals.None? || |e.rhs| != 1 || !e.rhs[0].CallExpr? then locals
    else
      var callee := ResolveGoCallee(env.imports, env.f.mod, e.rhs[0].fn.text);
      var name := FirstIdent(e.lhs);
      if callee !in env.funcs || env.funcs[callee].returnType == "" || name.None? then locals
      else Some(locals.value[name.value := env.funcs[callee].returnType])
  }

  function WalkExpr(env: Env, e: Expr, isCallee: bool, locals: Option<Locals>): Walked
    decreases e, 0
  {
    match e
    case Ident(_) => Walked(locals, [])
    case Selector(_, operand, _, _) =>
      var inner := WalkExpr(env, operand, false, locals);
      Walked(inner.locals, (if isCallee then [] else [ReadEvent(ReadAt(env, e))]) + inner.events)
    case CallExpr(_, fn, args, _) =>
      var called := WalkExpr(env, fn, true, locals);
      var rest := WalkExprs(env, args, |args|, called.locals);
      Walked(rest.locals, [CallEvent(CallAt(env, e, locals))] + (called.events + rest.events))
    case ShortVar(_, lhs, rhs) =>
      var left := WalkExprs(env, lhs, |lhs|, Inferred(env, e, locals));
      var right := WalkExprs(env, rhs, |rhs|, left.locals);
      Walked(right.locals, left.events + right.events)
    case Inner(_, parts) => WalkExprs(env, parts, |parts|, locals)
  }

  function WalkExprs(env: Env, es: seq<Expr>, k: nat, locals: Option<Locals>): Walked
    requires k <= |es|
    decreases es, k
  {
    if k == 0 then Walked(locals, [])
    else
      var before := WalkExprs(env, es, k - 1, locals);
      var last := WalkExpr(env, es[k - 1], false, before.locals);
      Walked(last.locals, before.events + last.events)
  }

  function BodyEvents(f: GoFile, d: Decl, imports: Imports, funcs: Funcs): seq<Event>
    requires d.FuncDecl?
  {
    var locals := Seeded(f.mod, imports, d.params, Seeded(f.mod, imports, d.recv, map[]));
    WalkExprs(Env(f, imports, funcs, ComposeName(f.mod, d.name, d.recvType)), d.body, |d.body|, Some(locals)).events
  }

  /** A declaration that phase A has missed is registered, one it has seen is kept. */
  function WithFunc(d: Snapshot, node: FuncNode): Snapshot {
    if node.fqn in d.funcs then d else d.(funcs := d.funcs[node.fqn := node])
  }

  datatype FileState = FileState(imports: Imports, graph: Snapshot)

  function WalkDecls(f: GoFile, k: nat, d: Snapshot): FileState
    requires k <= |f.decls|
  {
    if k == 0 then FileState(map[], d)
    else
      var before := WalkDecls(f, k - 1, d);
      match f.decls[k - 1]
      case ImportDecl(specs) => before.(imports := ImportedAll(specs, before.imports))
      case FuncDecl(_, _, _, _, _, _, _) =>
        var known := WithFunc(before.graph, NodeOf(f, f.decls[k - 1], before.imports));
        before.(graph := RecordAll(known, BodyEvents(f, f.decls[k - 1], before.imports, known.funcs)))
      case OtherDecl(e) =>
        var env := Env(f, before.imports, before.graph.funcs, "");
        before.(graph := RecordAll(before.graph, WalkExpr(env, e, false, None).events))
  }

  function PhaseB(files: seq<GoFile>, k: nat, d: Snapshot): Snapshot
    requires k <= |files|
  {
    if k == 0 then d else WalkDecls(files[k - 1], |files[k - 1].decls|, PhaseB(files, k - 1, d)).graph
  }

  function Built(files: seq<GoFile>): Snapshot {
    PhaseB(files, |files|, EMPTY.(funcs := PhaseA(files, |files|)))
  }

  lemma {:induction false} RecordAllAppend(d: Snapshot, a: seq<Event>, b: seq<Event>)
    ensures RecordAll(d, a + b) == RecordAll(RecordAll(d, a), b)
  {
    if b == [] {
      assert a + b == a;
    } else {
      var n := |b| - 1;
      RecordAllAppend(d, a, b[..n]);
      var all := a + b;
      assert all[..|all| - 1] == a + b[..n] && all[|all| - 1] == b[n];
    }
  }

  lemma RecordOne(d: Snapshot, e: Event)
    ensures RecordAll(d, [e]) == Record(d, e)
  {
    assert [e][..0] == [];
  }

  lemma {:induction false} RecordAllKeepsFuncs(d: Snapshot, events: seq<Event>)
    ensures RecordAll(d, events).funcs == d.funcs && RecordAll(d, events).suppressions == d.suppressions
  {
    if events != [] {
      RecordAllKeepsFuncs(d, events[..|events| - 1]);
    }
  }

  // ---------------------------------------------------------------- the stateful extractor

  class GoExtractor {
    const g: Graph
    const f: GoFile
    var imports: Imports
    var curFunc: FQN
    var localTypes: Option<Locals>

    constructor (g: Graph, f: GoFile)
      ensures this.g == g && this.f == f && imports == map[] && curFunc == "" && localTypes == None
    {
      this.g, this.f := g, f;
      imports, curFunc, localTypes := map[], "", None;
    }

    function ThisEnv(): Env
      reads this, g
    {
      Env(f, imports, g.Funcs, curFunc)
    }

    method HandleImportDeclaration(specs: seq<ImportSpec>)
      modifies this`imports
      ensures imports == ImportedAll(specs, old(imports))
    {
      for i := 0 to |specs|
        invariant imports == ImportedFirst(specs, i, old(imports))
      {
        imports := ImportedBy(specs[i], imports);
      }
    }

    /** Phase A for one file. */
    method DiscoverFunctions()
      requires g.Valid() && imports == map[]
      modifies this, g
      ensures g.Valid() && Found(imports, g.Funcs) == Discovered(f, |f.decls|, old(g.Funcs))
      ensures g.View() == old(g.View()).(funcs := g.Funcs)
    {
      for i := 0 to |f.decls|
        invariant g.Valid() && Found(imports, g.Funcs) == Discovered(f, i, old(g.Funcs))
        invariant g.View() == old(g.View()).(funcs := g.Funcs)
      {
        match f.decls[i] {
          case ImportDecl(specs) => HandleImportDeclaration(specs);
          case FuncDecl(_, _, _, _, _, _, _) => g.AddFunc(NodeOf(f, f.decls[i], imports));
          case OtherDecl(_) =>
        }
      }
    }

    method HandleCall(e: Expr)
      requires g.Valid() && e.CallExpr?
      modifies g
      ensures g.Valid() && g.View() == Record(old(g.View()), CallEvent(CallAt(ThisEnv(), e, localTypes)))
    {
      var resolved := ResolveGoCallee(imports, f.mod, e.fn.text);
      if e.fn.Selector? {
        if e.fn.operand.Ident? && localTypes.Some? && e.fn.operand.text in localTypes.value {
          resolved := localTypes.value[e.fn.operand.text] + "." + e.fn.field;
        }
      }
      g.AddCall(CallSite(curFunc, resolved, e.fn.text, f.file, Some(e.node), e.node.Line()));
    }

    method RecordShortVarDeclaration(e: Expr)
      requires e.ShortVar?
      modifies this`localTypes
      ensures localTypes == Inferred(ThisEnv(), e, old(localTypes))
    {
      if localTypes.None? {
        return;
      }
      if |e.rhs| != 1 || !e.rhs[0].CallExpr? {
        return;
      }
      var callee := ResolveGoCallee(imports, f.mod, e.rhs[0].fn.text);
      if callee !in g.Funcs || g.Funcs[callee].returnType == "" {
        return;
      }
      var i := 0;
      assert e.lhs[0..] == e.lhs;
      while i < |e.lhs|
        invariant 0 <= i <= |e.lhs| && localTypes == old(localTypes)
        invariant FirstIdent(e.lhs) == FirstIdent(e.lhs[i..])
      {
        if e.lhs[i].Ident? {
          localTypes := Some(localTypes.value[e.lhs[i].text := g.Funcs[callee].returnType]);
          return;
        }
        assert e.lhs[i..][1..] == e.lhs[i + 1..];
        i := i + 1;
      }
    }

    /** Walks one expression of a body or of module scope. */
    method WalkNode(e: Expr, isCallee: bool)
      requires g.Valid()
      modifies this`localTypes, g
      ensures g.Valid() && g.Funcs == old(g.Funcs)
      ensures
        var walked := WalkExpr(ThisEnv(), e, isCallee, old(localTypes));
        localTypes == walked.locals && g.View() == RecordAll(old(g.View()), walked.events)
      decreases e, 0
    {
      ghost var d := g.View();
      match e {
        case Ident(_) =>
        case Selector(_, operand, _, _) =>
          if !isCallee {
            g.AddField(ReadAt(ThisEnv(), e));
            RecordOne(d, ReadEvent(ReadAt(ThisEnv(), e)));
          }
          ghost var pre := if isCallee then [] else [ReadEvent(ReadAt(ThisEnv(), e))];
          WalkNode(operand, false);
          RecordAllAppend(d, pre, WalkExpr(ThisEnv(), operand, false, old(localTypes)).events);
        case CallExpr(_, fn, args, _) =>
          HandleCall(e);
          ghost var call := CallEvent(CallAt(ThisEnv(), e, localTypes));
          RecordOne(d, call);
          WalkNode(fn, true);
          ghost var called := WalkExpr(ThisEnv(), fn, true, old(localTypes));
          WalkAll(args);
          ghost var rest := WalkExprs(ThisEnv(), args, |args|, called.locals);
          RecordAllAppend(Record(d, call), called.events, rest.events);
          RecordAllAppend(d, [call], called.events + rest.events);
        case ShortVar(_, lhs, rhs) =>
          RecordShortVarDeclaration(e);
          ghost var start := localTypes;
          WalkAll(lhs);
          ghost var left := WalkExprs(ThisEnv(), lhs, |lhs|, start);
          WalkAll(rhs);
          RecordAllAppend(d, left.events, WalkExprs(ThisEnv(), rhs, |rhs|, left.locals).events);
        case Inner(_, parts) =>
          WalkAll(parts);
      }
    }

    method WalkAll(es: seq<Expr>)
      requires g.Valid()
      modifies this`localTypes, g
      ensures g.Valid() && g.Funcs == old(g.Funcs)
      ensures
        var walked := WalkExprs(ThisEnv(), es, |es|, old(localTypes));
        localTypes == walked.locals && g.View() == RecordAll(old(g.View()), walked.events)
      decreases es, |es| + 1
    {
      ghost var d := g.View();
      for i := 0 to |es|
        invariant g.Valid() && g.Funcs == old(g.Funcs)
        invariant localTypes == WalkExprs(ThisEnv(), es, i, old(localTypes)).locals
        invariant g.View() == RecordAll(d, WalkExprs(ThisEnv(), es, i, old(localTypes)).events)
      {
        ghost var before := WalkExprs(ThisEnv(), es, i, old(localTypes));
        WalkNode(es[i], false);
        RecordAllAppend(d, before.events, WalkExpr(ThisEnv(), es[i], false, before.locals).events);
      }
    }

    /** One function: registered if missing, its body walked under its own name and
        parameter types, which are put back afterwards. */
    method RecordAndRecurse(d: Decl)
      requires g.Valid() && d.FuncDecl?
      modifies this`curFunc, this`localTypes, g
      ensures g.Valid() && curFunc == old(curFunc) && localTypes == old(localTypes)
      ensures
        var known := WithFunc(old(g.View()), NodeOf(f, d, imports));
        g.View() == RecordAll(known, BodyEvents(f, d, imports, known.funcs))
    {
      var node := NodeOf(f, d, imports);
      if node.fqn !in g.Funcs {
        g.AddFunc(node);
      }
      var prevFunc, prevLocals := curFunc, localTypes;
      curFunc := node.fqn;
      localTypes := Some(Seeded(f.mod, imports, d.params, Seeded(f.mod, imports, d.recv, map[])));
      WalkAll(d.body);
      curFunc, localTypes := prevFunc, prevLocals;
    }

    /** Phase B for one file. */
    method WalkFile()
      requires g.Valid() && imports == map[] && curFunc == "" && localTypes == None
      modifies this, g
      ensures g.Valid() && g.View() == WalkDecls(f, |f.decls|, old(g.View())).graph
    {
      for i := 0 to |f.decls|
        invariant g.Valid() && curFunc == "" && localTypes == None
        invariant FileState(imports, g.View()) == WalkDecls(f, i, old(g.View()))
      {
        match f.decls[i] {
          case ImportDecl(specs) => HandleImportDeclaration(specs);
          case FuncDecl(_, _, _, _, _, _, _) => RecordAndRecurse(f.decls[i]);
          case OtherDecl(e) =>
            WalkNode(e, false);
            NoLocals(ThisEnv(), e, false);
        }
      }
    }
  }

  /** At module scope no local type is ever tracked. */
  lemma {:induction false} NoLocals(env: Env, e: Expr, isCallee: bool)
    ensures WalkExpr(env, e, isCallee, None).locals == None
    decreases e, 0
  {
    match e
    case Ident(_) =>
    case Selector(_, operand, _, _) => NoLocals(env, operand, false);
    case CallExpr(_, fn, args, _) =>
      NoLocals(env, fn, true);
      NoLocalsIn(env, args, |args|);
    case ShortVar(_, lhs, rhs) =>
      NoLocalsIn(env, lhs, |lhs|);
      NoLocalsIn(env, rhs, |rhs|);
    case Inner(_, parts) => NoLocalsIn(env, parts, |parts|);
  }

  lemma {:induction false} NoLocalsIn(env: Env, es: seq<Expr>, k: nat)
    requires k <= |es|
    ensures WalkExprs(env, es, k, None).locals == None
    decreases es, k
  {
    if k > 0 {
      NoLocalsIn(env, es, k - 1);
      NoLocals(env, es[k - 1], false);
    }
  }

  /** Phase A over all files. */
  method DiscoverAll(g: Graph, files: seq<GoFile>)
    requires g.Valid() && g.View() == EMPTY
    modifies g
    ensures g.Valid() && g.View() == EMPTY.(funcs := PhaseA(files, |files|))
  {
    for i := 0 to |files|
      invariant g.Valid() && g.View() == EMPTY.(funcs := PhaseA(files, i))
    {
      var ext := new GoExtractor(g, files[i]);
      ext.DiscoverFunctions();
    }
  }

  /** Phase B over all files, each with imports of its own. */
  method WalkAllFiles(g: Graph, files: seq<GoFile>)
    requires g.Valid()
    modifies g
    ensures g.Valid() && g.View() == PhaseB(files, |files|, old(g.View()))
  {
    for i := 0 to |files|
      invariant g.Valid() && g.View() == PhaseB(files, i, old(g.View()))
    {
      var ext := new GoExtractor(g, files[i]);
      ext.WalkFile();
    }
  }

  method BuildGo(files: seq<GoFile>) returns (g: Graph)
    ensures fresh(g) && g.Valid() && g.View() == Built(files)
  {
    g := new Graph();
    DiscoverAll(g, files);
    WalkAllFiles(g, files);
  }
}
