/** The Python extractor: a walk over the syntax tree that keeps a scope stack and the
    enclosing function in mutable state, and the environment-passing walk it refines. */
module PythonWalk {
  import opened Text
  import opened Syntax
  import opened CallGraph
  import opened RelativeImports

  /** What is fixed while one file is walked. */
  datatype Unit = Unit(file: File, mod: FQN, pkg: FQN)

  /** What is threaded through the walk: imports are not scoped, and the graph grows. */
  datatype Walked = Walked(imports: map<string, FQN>, graph: Snapshot)

  // ---------------------------------------------------------------- names

  function ResolveCallee(imports: map<string, FQN>, mod: FQN, raw: string): FQN {
    var parts := Split(raw, '.');
    if parts[0] in imports then
      if |parts| == 1 then imports[parts[0]] else imports[parts[0]] + "." + Join(parts[1..], '.')
    else mod + "." + raw
  }

  function FunctionName(mod: FQN, scope: seq<string>, name: string): FQN {
    mod + "." + Join(scope + [name], '.')
  }

  function DecoratorName(dec: Node): string {
    if dec.children == [] then ""
    else
      var expr := dec.children[0].node;
      var called := expr.ByField(FunctionField);
      if expr.kind == Call && called.Some? then called.value.text else expr.text
  }

  /** The decorators among the first `k` children. */
  function DecoratorsIn(children: seq<Child>, k: nat): seq<string>
    requires k <= |children|
  {
    if k == 0 then []
    else
      var c := children[k - 1].node;
      DecoratorsIn(children, k - 1) + if c.kind == Decorator then [DecoratorName(c)] else []
  }

  /** Index of the last definition among the first `k` children, or -1. */
  function InnerIn(children: seq<Child>, k: nat): (i: int)
    requires k <= |children|
    ensures -1 <= i < k
    ensures i >= 0 ==> IsDefinition(children[i].node)
    ensures forall j :: i < j < k ==> !IsDefinition(children[j].node)
  {
    if k == 0 then -1
    else if IsDefinition(children[k - 1].node) then k - 1
    else InnerIn(children, k - 1)
  }

  predicate IsDefinition(n: Node) {
    n.kind == FunctionDefinition || n.kind == ClassDefinition
  }

  /** The child is what the call `n` calls. */
  predicate IsCallee(n: Node, i: nat) {
    n.kind == Call && i == FieldIndex(n.children, FunctionField)
  }

  // ---------------------------------------------------------------- imports

  /** `name as alias` binds the alias to the name below `prefix`. */
  function AliasBinding(n: Node, prefix: string, imports: map<string, FQN>): map<string, FQN> {
    var name, alias := n.ByField(NameField), n.ByField(AliasField);
    if name.Some? && alias.Some? then imports[alias.value.text := prefix + name.value.text] else imports
  }

  /** `import a.b.c` binds `a` to the whole dotted name. */
  function ImportBinding(n: Node, imports: map<string, FQN>): map<string, FQN> {
    if n.kind == DottedName then imports[Split(n.text, '.')[0] := n.text]
    else if n.kind == AliasedImport then AliasBinding(n, "", imports)
    else imports
  }

  function ImportBindings(children: seq<Child>, k: nat, imports: map<string, FQN>): map<string, FQN>
    requires k <= |children|
  {
    if k == 0 then imports else ImportBinding(children[k - 1].node, ImportBindings(children, k - 1, imports))
  }

  function FromBinding(n: Node, mod: string, imports: map<string, FQN>): map<string, FQN> {
    if n.kind == DottedName then imports[n.text := mod + "." + n.text]
    else if n.kind == AliasedImport then AliasBinding(n, mod + ".", imports)
    else imports
  }

  function FromBindings(children: seq<Child>, k: nat, skip: nat, mod: string, imports: map<string, FQN>)
    : map<string, FQN>
    requires k <= |children|
  {
    if k == 0 then imports
    else
      var before := FromBindings(children, k - 1, skip, mod, imports);
      if k - 1 == skip then before else FromBinding(children[k - 1].node, mod, before)
  }

  /** Dot count and dotted rest of a relative import: the last child of each kind wins. */
  function RelativeParts(children: seq<Child>, k: nat): (int, string)
    requires k <= |children|
  {
    if k == 0 then (0, "")
    else
      var (dots, rest) := RelativeParts(children, k - 1);
      var c := children[k - 1].node;
      if c.kind == ImportPrefix then (Count(c.text, '.'), rest)
      else if c.kind == DottedName then (dots, c.text)
      else (dots, rest)
  }

  function ModuleName(pkg: FQN, n: Node): string {
    if n.kind != RelativeImport then n.text
    else var (dots, rest) := RelativeParts(n.children, |n.children|); RelativeModule(pkg, dots, rest)
  }

  function FromImported(u: Unit, n: Node, imports: map<string, FQN>): map<string, FQN> {
    var at := FieldIndex(n.children, ModuleNameField);
    if at == |n.children| then imports
    else
      var mod := ModuleName(u.pkg, n.children[at].node);
      if mod == "" then imports else FromBindings(n.children, |n.children|, at, mod, imports)
  }

  // ---------------------------------------------------------------- the environment-passing walk

  function Called(u: Unit, n: Node, cur: FQN, st: Walked): Walked {
    var fn := n.ByField(FunctionField);
    if fn.None? then st
    else
      var raw := fn.value.text;
      var site := CallSite(cur, ResolveCallee(st.imports, u.mod, raw), raw, u.file, Some(n), n.Line());
      st.(graph := st.graph.(calls := Append(st.graph.calls, cur, site)))
  }

  function AccessAt(u: Unit, n: Node, cur: FQN): Option<FieldAccess> {
    var attr := n.ByField(AttributeField);
    if attr.None? then None else Some(FieldAccess(cur, attr.value.text, n.text, u.file, n.Line()))
  }

  function Accessed(u: Unit, n: Node, cur: FQN, st: Walked): Walked {
    var access := AccessAt(u, n, cur);
    if access.None? then st
    else st.(graph := st.graph.(fields := Append(st.graph.fields, cur, access.value)))
  }

  function Defined(u: Unit, n: Node, fqn: FQN, decorators: seq<string>, st: Walked): Walked {
    st.(graph := st.graph.(funcs := st.graph.funcs[fqn := FuncNode(fqn, u.file, n.Line(), decorators, "")]))
  }

  /** The state after walking `n` inside `scope` and function `cur`. */
  function Walk(u: Unit, n: Node, isCallee: bool, scope: seq<string>, cur: FQN, st: Walked): Walked
    decreases n, |n.children| + 2
  {
    match n.kind
    case ImportStatement => st.(imports := ImportBindings(n.children, |n.children|, st.imports))
    case ImportFromStatement => st.(imports := FromImported(u, n, st.imports))
    case DecoratedDefinition =>
      var i := InnerIn(n.children, |n.children|);
      if i < 0 then st
      else if n.children[i].node.kind == FunctionDefinition then
        WalkFunction(u, n.children[i].node, DecoratorsIn(n.children, |n.children|), scope, cur, st)
      else WalkClass(u, n.children[i].node, scope, cur, st)
    case ClassDefinition => WalkClass(u, n, scope, cur, st)
    case FunctionDefinition => WalkFunction(u, n, [], scope, cur, st)
    case Call => WalkFirst(u, n, |n.children|, scope, cur, Called(u, n, cur, st))
    case Attribute => WalkFirst(u, n, |n.children|, scope, cur, if isCallee then st else Accessed(u, n, cur, st))
    case _ => WalkFirst(u, n, |n.children|, scope, cur, st)
  }

  /** The first `k` children, left to right. */
  function WalkFirst(u: Unit, n: Node, k: nat, scope: seq<string>, cur: FQN, st: Walked): Walked
    requires k <= |n.children|
    decreases n, k
  {
    if k == 0 then st
    else Walk(u, n.children[k - 1].node, IsCallee(n, k - 1), scope, cur, WalkFirst(u, n, k - 1, scope, cur, st))
  }

  function WalkClass(u: Unit, n: Node, scope: seq<string>, cur: FQN, st: Walked): Walked
    decreases n, |n.children| + 1
  {
    var name, body := n.ByField(NameField), n.ByField(BodyField);
    if name.None? || body.None? then st
    else WalkFirst(u, body.value, |body.value.children|, scope + [name.value.text], cur, st)
  }

  function WalkFunction(u: Unit, n: Node, decorators: seq<string>, scope: seq<string>, cur: FQN, st: Walked): Walked
    decreases n, |n.children| + 1
  {
    var name, body := n.ByField(NameField), n.ByField(BodyField);
    if name.None? then st
    else
      var fqn := FunctionName(u.mod, scope, name.value.text);
      var defined := Defined(u, n, fqn, decorators, st);
      if body.None? then defined
      else WalkFirst(u, body.value, |body.value.children|, scope + [name.value.text], fqn, defined)
  }

  // ---------------------------------------------------------------- the stateful walk

  class PyExtractor {
    const g: Graph
    const file: File
    const modFQN: FQN
    const pkgFQN: FQN
    var imports: map<string, FQN>
    var scope: seq<string>
    var curFunc: FQN

    constructor (g: Graph, file: File, modFQN: FQN)
      ensures this.g == g && imports == map[] && scope == [] && curFunc == ""
      ensures ThisUnit() == Unit(file, modFQN, PythonPackage(file.path, modFQN))
    {
      this.g, this.file, this.modFQN := g, file, modFQN;
      pkgFQN := PythonPackage(file.path, modFQN);
      imports, scope, curFunc := map[], [], "";
    }

    function ThisUnit(): Unit {
      Unit(file, modFQN, pkgFQN)
    }

    function State(): Walked
      reads this, g
    {
      Walked(imports, g.View())
    }

    method HandleImport(n: Node)
      modifies this`imports
      ensures imports == ImportBindings(n.children, |n.children|, old(imports))
    {
      for i := 0 to |n.children|
        invariant imports == ImportBindings(n.children, i, old(imports))
      {
        var c := n.children[i].node;
        if c.kind == DottedName {
          var head := Split(c.text, '.')[0];
          imports := imports[head := c.text];
        } else if c.kind == AliasedImport {
          imports := AliasBinding(c, "", imports);
        }
      }
    }

    method ResolveModuleName(n: Node) returns (mod: string)
      ensures mod == ModuleName(pkgFQN, n)
    {
      if n.kind != RelativeImport {
        return n.text;
      }
      var dots, rest := 0, "";
      for i := 0 to |n.children|
        invariant (dots, rest) == RelativeParts(n.children, i)
      {
        var c := n.children[i].node;
        if c.kind == ImportPrefix {
          dots := Count(c.text, '.');
        } else if c.kind == DottedName {
          rest := c.text;
        }
      }
      return RelativeModule(pkgFQN, dots, rest);
    }

    method HandleImportFrom(n: Node)
      modifies this`imports
      ensures imports == FromImported(ThisUnit(), n, old(imports))
    {
      var at := FieldIndex(n.children, ModuleNameField);
      if at == |n.children| {
        return;
      }
      var modName := ResolveModuleName(n.children[at].node);
      if modName == "" {
        return;
      }
      for i := 0 to |n.children|
        invariant imports == FromBindings(n.children, i, at, modName, old(imports))
      {
        if i == at {
          continue;
        }
        var c := n.children[i].node;
        if c.kind == DottedName {
          imports := imports[c.text := modName + "." + c.text];
        } else if c.kind == AliasedImport {
          imports := AliasBinding(c, modName + ".", imports);
        }
      }
    }

    method HandleCall(n: Node)
      requires g.Valid()
      modifies g
      ensures g.Valid() && State() == Called(ThisUnit(), n, curFunc, old(State()))
    {
      var fn := n.ByField(FunctionField);
      if fn.None? {
        return;
      }
      var raw := fn.value.text;
      g.AddCall(CallSite(curFunc, ResolveCallee(imports, modFQN, raw), raw, file, Some(n), n.Line()));
    }

    method HandleFieldAccess(n: Node)
      requires g.Valid()
      modifies g
      ensures g.Valid() && State() == Accessed(ThisUnit(), n, curFunc, old(State()))
    {
      var attr := n.ByField(AttributeField);
      if attr.None? {
        return;
      }
      g.AddField(FieldAccess(curFunc, attr.value.text, n.text, file, n.Line()));
    }

    /** Walks one subtree. The scope stack and the enclosing function are what they were
        before, and the state is the one the environment-passing walk computes. */
    method WalkNode(n: Node, isCallee: bool)
      requires g.Valid()
      modifies this, g
      ensures g.Valid() && scope == old(scope) && curFunc == old(curFunc)
      ensures State() == Walk(ThisUnit(), n, isCallee, scope, curFunc, old(State()))
      decreases n, |n.children| + 2
    {
      match n.kind {
        case ImportStatement =>
          HandleImport(n);
          return;
        case ImportFromStatement =>
          HandleImportFrom(n);
          return;
        case DecoratedDefinition =>
          HandleDecorated(n);
          return;
        case ClassDefinition =>
          HandleClass(n);
          return;
        case FunctionDefinition =>
          HandleFunction(n, []);
          return;
        case Call =>
          HandleCall(n);
        case Attribute =>
          if !isCallee {
            HandleFieldAccess(n);
          }
        case _ =>
      }
      WalkChildren(n);
    }

    method WalkChildren(n: Node)
      requires g.Valid()
      modifies this, g
      ensures g.Valid() && scope == old(scope) && curFunc == old(curFunc)
      ensures State() == WalkFirst(ThisUnit(), n, |n.children|, scope, curFunc, old(State()))
      decreases n, |n.children| + 1
    {
      for i := 0 to |n.children|
        invariant g.Valid() && scope == old(scope) && curFunc == old(curFunc)
        invariant State() == WalkFirst(ThisUnit(), n, i, scope, curFunc, old(State()))
      {
        WalkNode(n.children[i].node, IsCallee(n, i));
      }
    }

    method HandleDecorated(n: Node)
      requires g.Valid() && n.kind == DecoratedDefinition
      modifies this, g
      ensures g.Valid() && scope == old(scope) && curFunc == old(curFunc)
      ensures State() == Walk(ThisUnit(), n, false, scope, curFunc, old(State()))
      decreases n, |n.children| + 1
    {
      var decorators: seq<string> := [];
      var inner := -1;
      for i := 0 to |n.children|
        invariant decorators == DecoratorsIn(n.children, i) && inner == InnerIn(n.children, i)
      {
        var c := n.children[i].node;
        if c.kind == Decorator {
          decorators := decorators + [DecoratorName(c)];
        } else if c.kind == FunctionDefinition || c.kind == ClassDefinition {
          inner := i;
        }
      }
      if inner < 0 {
        return;
      }
      if n.children[inner].node.kind == FunctionDefinition {
        HandleFunction(n.children[inner].node, decorators);
      } else {
        HandleClass(n.children[inner].node);
      }
    }

    method HandleClass(n: Node)
      requires g.Valid()
      modifies this, g
      ensures g.Valid() && scope == old(scope) && curFunc == old(curFunc)
      ensures State() == WalkClass(ThisUnit(), n, scope, curFunc, old(State()))
      decreases n, |n.children| + 1
    {
      var name := n.ByField(NameField);
      if name.None? {
        return;
      }
      scope := scope + [name.value.text];
      var body := n.ByField(BodyField);
      if body.Some? {
        WalkChildren(body.value);
      }
      scope := scope[..|scope| - 1];
    }

    method HandleFunction(n: Node, decorators: seq<string>)
      requires g.Valid()
      modifies this, g
      ensures g.Valid() && scope == old(scope) && curFunc == old(curFunc)
      ensures State() == WalkFunction(ThisUnit(), n, decorators, scope, curFunc, old(State()))
      decreases n, |n.children| + 1
    {
      var name := n.ByField(NameField);
      if name.None? {
        return;
      }
      var fqn := FunctionName(modFQN, scope, name.value.text);
      g.AddFunc(FuncNode(fqn, file, n.Line(), decorators, ""));
      var prevFunc := curFunc;
      curFunc := fqn;
      scope := scope + [name.value.text];
      var body := n.ByField(BodyField);
      if body.Some? {
        WalkChildren(body.value);
      }
      curFunc := prevFunc;
      scope := scope[..|scope| - 1];
    }
  }
}
