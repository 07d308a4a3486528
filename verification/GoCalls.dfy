/** Calls in the built Go graph: under which callee a call in a body is recorded, from the
    imports, the parameters and the declarations before it. */
module GoCalls {
  import opened Text
  import opened CallGraph
  import opened Reachability
  import opened Solver
  import opened GoBuild
  import opened GoOrder
  import Naming

  // ---------------------------------------------------------------- what a body records

  /** The calls of an expression and the selectors that are not called, outside in and left
      to right. */
  function Visited(e: Expr, isCallee: bool): seq<Expr>
    decreases e, 0
  {
    match e
    case Ident(_) => []
    case Selector(_, operand, _, _) => (if isCallee then [] else [e]) + Visited(operand, false)
    case CallExpr(_, fn, args, _) => [e] + (Visited(fn, true) + VisitedFirst(args, |args|))
    case ShortVar(_, lhs, rhs) => VisitedFirst(lhs, |lhs|) + VisitedFirst(rhs, |rhs|)
    case Inner(_, parts) => VisitedFirst(parts, |parts|)
  }

  function VisitedFirst(es: seq<Expr>, k: nat): seq<Expr>
    requires k <= |es|
    decreases es, k
  {
    if k == 0 then [] else VisitedFirst(es, k - 1) + Visited(es[k - 1], false)
  }

  predicate IsCallOn(e: Expr, r: string) {
    e.CallExpr? && e.fn.Selector? && e.fn.operand == Ident(r)
  }

  /** The call `e` in the function `env.cur`, resolved to `callee`. */
  function SiteOf(env: Env, e: Expr, callee: FQN): CallSite
    requires e.CallExpr?
  {
    CallSite(env.cur, callee, e.fn.text, env.f.file, Some(e.node), e.node.start.row + 1)
  }

  /** The callee of a call on `r`, by the type of `r` or, without one, by the text. */
  function CalleeBy(env: Env, e: Expr, ty: Option<string>): FQN
    requires e.CallExpr? && e.fn.Selector?
  {
    if ty.Some? then ty.value + "." + e.fn.field else ResolveGoCallee(env.imports, env.f.mod, e.fn.text)
  }

  /** `x` records `e`: a selector with its field, text and line; a call under some callee,
      which is the one that `ty` gives for calls on `r` as long as `kept` holds, and the one
      that the text gives for calls on no identifier. */
  ghost predicate Fits(env: Env, e: Expr, x: Event, r: string, ty: Option<string>, kept: bool) {
    match e
    case Selector(text, _, field, line) => x == ReadEvent(FieldAccess(env.cur, field, text, env.f.file, line))
    case CallExpr(_, fn, _, _) =>
      && x.CallEvent? && x.site == SiteOf(env, e, x.site.callee)
      && (kept && IsCallOn(e, r) ==> x.site.callee == CalleeBy(env, e, ty))
      && (!(fn.Selector? && fn.operand.Ident?) ==> x.site.callee == ResolveGoCallee(env.imports, env.f.mod, fn.text))
    case _ => false
  }

  ghost predicate AllFit(env: Env, es: seq<Expr>, xs: seq<Event>, r: string, ty: Option<string>, kept: bool) {
    |xs| == |es| && forall i :: 0 <= i < |es| ==> Fits(env, es[i], xs[i], r, ty, kept)
  }

  lemma BothFit(env: Env, a: seq<Expr>, xs: seq<Event>, b: seq<Expr>, ys: seq<Event>,
                r: string, ty: Option<string>, keptA: bool, keptB: bool, kept: bool)
    requires AllFit(env, a, xs, r, ty, keptA) && AllFit(env, b, ys, r, ty, keptB)
    requires kept ==> keptA && keptB
    ensures AllFit(env, a + b, xs + ys, r, ty, kept)
  {
  }

  lemma OneFits(env: Env, e: Expr, x: Event, r: string, ty: Option<string>, kept: bool)
    requires Fits(env, e, x, r, ty, kept)
    ensures AllFit(env, [e], [x], r, ty, kept)
  {
  }

  /** What is known of the type of `r`. */
  function Entry(locals: Option<Locals>, r: string): Option<string> {
    if locals.Some? && r in locals.value then Some(locals.value[r]) else None
  }

  /** Nothing in the expression gives `r` another type. */
  predicate Keeps(e: Expr, r: string) {
    match e
    case Ident(_) => true
    case Selector(_, operand, _, _) => Keeps(operand, r)
    case CallExpr(_, fn, args, _) => Keeps(fn, r) && forall i :: 0 <= i < |args| ==> Keeps(args[i], r)
    case ShortVar(_, lhs, rhs) =>
      && FirstIdent(lhs) != Some(r)
      && (forall i :: 0 <= i < |lhs| ==> Keeps(lhs[i], r))
      && (forall i :: 0 <= i < |rhs| ==> Keeps(rhs[i], r))
    case Inner(_, parts) => forall i :: 0 <= i < |parts| ==> Keeps(parts[i], r)
  }

  predicate KeepFrom(es: seq<Expr>, i: nat, k: nat, r: string)
    requires k <= |es|
  {
    forall j :: i <= j < k ==> Keeps(es[j], r)
  }

  lemma {:induction false} EntryKept(env: Env, e: Expr, isCallee: bool, locals: Option<Locals>, r: string)
    requires Keeps(e, r)
    ensures Entry(WalkExpr(env, e, isCallee, locals).locals, r) == Entry(locals, r)
    decreases e, 0
  {
    match e
    case Ident(_) =>
    case Selector(_, operand, _, _) => EntryKept(env, operand, false, locals, r);
    case CallExpr(_, fn, args, _) =>
      EntryKept(env, fn, true, locals, r);
      EntryKeptIn(env, args, 0, |args|, WalkExpr(env, fn, true, locals).locals, r);
    case ShortVar(_, lhs, rhs) =>
      var start := Inferred(env, e, locals);
      EntryKeptIn(env, lhs, 0, |lhs|, start, r);
      EntryKeptIn(env, rhs, 0, |rhs|, WalkExprs(env, lhs, |lhs|, start).locals, r);
    case Inner(_, parts) => EntryKeptIn(env, parts, 0, |parts|, locals, r);
  }

  /** From statement `i` on the type is kept up to statement `k`. */
  lemma {:induction false} EntryKeptIn(env: Env, es: seq<Expr>, i: nat, k: nat, locals: Option<Locals>, r: string)
    requires i <= k <= |es| && KeepFrom(es, i, k, r)
    ensures Entry(WalkExprs(env, es, k, locals).locals, r) == Entry(WalkExprs(env, es, i, locals).locals, r)
    decreases es, k
  {
    if i < k {
      EntryKeptIn(env, es, i, k - 1, locals, r);
      EntryKept(env, es[k - 1], false, WalkExprs(env, es, k - 1, locals).locals, r);
    }
  }

  /** The walk records what it visits, each exactly once and in order. */
  lemma {:induction false} WalkFits(env: Env, e: Expr, isCallee: bool, locals: Option<Locals>, r: string)
    ensures AllFit(env, Visited(e, isCallee), WalkExpr(env, e, isCallee, locals).events,
                   r, Entry(locals, r), Keeps(e, r))
    decreases e, 0
  {
    var ty, kept := Entry(locals, r), Keeps(e, r);
    match e {
      case Ident(_) =>
      case Selector(_, operand, _, _) =>
        WalkFits(env, operand, false, locals, r);
        var own, rest := if isCallee then [] else [e], WalkExpr(env, operand, false, locals).events;
        BothFit(env, own, if isCallee then [] else [ReadEvent(ReadAt(env, e))], Visited(operand, false), rest,
                r, ty, kept, Keeps(operand, r), kept);
      case CallExpr(_, fn, args, _) => CallFits(env, e, isCallee, locals, r);
      case ShortVar(_, lhs, rhs) => DeclarationFits(env, e, isCallee, locals, r);
      case Inner(_, parts) => WalksFit(env, parts, |parts|, locals, r);
    }
  }

  lemma {:induction false} CallFits(env: Env, e: Expr, isCallee: bool, locals: Option<Locals>, r: string)
    requires e.CallExpr?
    ensures AllFit(env, Visited(e, isCallee), WalkExpr(env, e, isCallee, locals).events,
                   r, Entry(locals, r), Keeps(e, r))
    decreases e, 0, 0
  {
    var ty, kept, called := Entry(locals, r), Keeps(e, r), WalkExpr(env, e.fn, true, locals);
    var args := WalkExprs(env, e.args, |e.args|, called.locals);
    WalkFits(env, e.fn, true, locals, r);
    WalksFit(env, e.args, |e.args|, called.locals, r);
    if kept {
      EntryKept(env, e.fn, true, locals, r);
      BothFit(env, Visited(e.fn, true), called.events, VisitedFirst(e.args, |e.args|), args.events,
              r, ty, true, true, true);
    } else {
      Unkept(env, Visited(e.fn, true), called.events, r, ty, Keeps(e.fn, r), ty);
      Unkept(env, VisitedFirst(e.args, |e.args|), args.events, r, Entry(called.locals, r),
             KeepFrom(e.args, 0, |e.args|, r), ty);
      BothFit(env, Visited(e.fn, true), called.events, VisitedFirst(e.args, |e.args|), args.events,
              r, ty, false, false, false);
    }
    OneFits(env, e, CallEvent(CallAt(env, e, locals)), r, ty, kept);
    BothFit(env, [e], [CallEvent(CallAt(env, e, locals))], Visited(e.fn, true) + VisitedFirst(e.args, |e.args|),
            called.events + args.events, r, ty, kept, kept, kept);
  }

  lemma {:induction false} DeclarationFits(env: Env, e: Expr, isCallee: bool, locals: Option<Locals>, r: string)
    requires e.ShortVar?
    ensures AllFit(env, Visited(e, isCallee), WalkExpr(env, e, isCallee, locals).events,
                   r, Entry(locals, r), Keeps(e, r))
    decreases e, 0, 0
  {
    var ty, kept, start := Entry(locals, r), Keeps(e, r), Inferred(env, e, locals);
    var left := WalkExprs(env, e.lhs, |e.lhs|, start);
    var right := WalkExprs(env, e.rhs, |e.rhs|, left.locals);
    WalksFit(env, e.lhs, |e.lhs|, start, r);
    WalksFit(env, e.rhs, |e.rhs|, left.locals, r);
    if kept {
      EntryKeptIn(env, e.lhs, 0, |e.lhs|, start, r);
    } else {
      Unkept(env, VisitedFirst(e.lhs, |e.lhs|), left.events, r, Entry(start, r), KeepFrom(e.lhs, 0, |e.lhs|, r), ty);
      Unkept(env, VisitedFirst(e.rhs, |e.rhs|), right.events, r, Entry(left.locals, r),
             KeepFrom(e.rhs, 0, |e.rhs|, r), ty);
    }
    BothFit(env, VisitedFirst(e.lhs, |e.lhs|), left.events, VisitedFirst(e.rhs, |e.rhs|), right.events,
            r, ty, kept, kept, kept);
  }

  /** Without the promise about `r` its type does not matter. */
  lemma Unkept(env: Env, es: seq<Expr>, xs: seq<Event>, r: string, ty: Option<string>, kept: bool,
               other: Option<string>)
    requires AllFit(env, es, xs, r, ty, kept)
    ensures AllFit(env, es, xs, r, other, false)
  {
  }

  lemma {:induction false} WalksFit(env: Env, es: seq<Expr>, k: nat, locals: Option<Locals>, r: string)
    requires k <= |es|
    ensures AllFit(env, VisitedFirst(es, k), WalkExprs(env, es, k, locals).events,
                   r, Entry(locals, r), KeepFrom(es, 0, k, r))
    decreases es, k
  {
    if k > 0 {
      var ty, before := Entry(locals, r), WalkExprs(env, es, k - 1, locals);
      var last := WalkExpr(env, es[k - 1], false, before.locals);
      var kept := KeepFrom(es, 0, k, r);
      WalksFit(env, es, k - 1, locals, r);
      WalkFits(env, es[k - 1], false, before.locals, r);
      if kept {
        EntryKeptIn(env, es, 0, k - 1, locals, r);
      } else {
        Unkept(env, Visited(es[k - 1], false), last.events, r, Entry(before.locals, r), Keeps(es[k - 1], r), ty);
      }
      BothFit(env, VisitedFirst(es, k - 1), before.events, Visited(es[k - 1], false), last.events,
              r, ty, KeepFrom(es, 0, k - 1, r), kept, kept);
    }
  }

  /** What statement `at` visits is recorded, and `r` has the type there that it had at
      statement `from`, unless something in between gives it another one. */
  lemma EventOf(env: Env, body: seq<Expr>, from: nat, at: nat, locals: Option<Locals>, r: string, e: Expr)
    returns (x: Event)
    requires from <= at < |body| && e in Visited(body[at], false)
    ensures x in WalkExprs(env, body, |body|, locals).events
    ensures Fits(env, e, x, r, Entry(WalkExprs(env, body, from, locals).locals, r), KeepFrom(body, from, at + 1, r))
  {
    var before := WalkExprs(env, body, at, locals);
    var own := WalkExpr(env, body[at], false, before.locals).events;
    if KeepFrom(body, from, at + 1, r) {
      EntryKeptIn(env, body, from, at, locals, r);
    }
    WalkFits(env, body[at], false, before.locals, r);
    var es := Visited(body[at], false);
    var i :| 0 <= i < |es| && es[i] == e;
    x := own[i];
    EventsGrow(env, body, at + 1, |body|, locals, x);
  }

  lemma {:induction false} EventsGrow(env: Env, es: seq<Expr>, i: nat, k: nat, locals: Option<Locals>, x: Event)
    requires i <= k <= |es| && x in WalkExprs(env, es, i, locals).events
    ensures x in WalkExprs(env, es, k, locals).events
    decreases k
  {
    if i < k {
      EventsGrow(env, es, i, k - 1, locals, x);
    }
  }

  // ---------------------------------------------------------------- imports

  predicate AllDigits(s: string) {
    forall i :: 0 <= i < |s| ==> '0' <= s[i] <= '9'
  }

  /** A version segment is `v` and digits, at least one. */
  lemma VersionIff(seg: string)
    ensures IsVersion(seg) <==> exists digits :: digits != "" && AllDigits(digits) && seg == "v" + digits
  {
    if IsVersion(seg) {
      assert seg == "v" + seg[1..];
    }
    if digits :| digits != "" && AllDigits(digits) && seg == "v" + digits {
      assert forall i :: 1 <= i < |seg| ==> seg[i] == digits[i - 1];
    }
  }

  predicate IsName(seg: string) {
    seg != "" && !IsVersion(seg)
  }

  /** The last of the segments that is neither empty nor a version; without such a one the
      last of all. */
  ghost predicate IsPackageName(path: string, name: string) {
    var parts := Split(path, '/');
    IsLastName(parts, Some(name)) || (IsLastName(parts, None) && name == parts[|parts| - 1])
  }

  /** `name` is the last of the parts that is a name, or there is none. */
  ghost predicate IsLastName(parts: seq<string>, name: Option<string>) {
    if name.None? then forall j :: 0 <= j < |parts| ==> !IsName(parts[j])
    else exists i :: 0 <= i < |parts| && parts[i] == name.value && IsName(name.value)
                     && forall j :: i < j < |parts| ==> !IsName(parts[j])
  }

  lemma {:induction false} LastNameIs(parts: seq<string>)
    ensures IsLastName(parts, LastNameIn(parts))
  {
    if parts != [] && !IsName(parts[|parts| - 1]) {
      LastNameIs(parts[..|parts| - 1]);
      NoNameBehind(parts, LastNameIn(parts));
    }
  }

  lemma NoNameBehind(parts: seq<string>, name: Option<string>)
    requires parts != [] && !IsName(parts[|parts| - 1]) && IsLastName(parts[..|parts| - 1], name)
    ensures IsLastName(parts, name)
  {
    var front := parts[..|parts| - 1];
    assert forall j :: 0 <= j < |front| ==> parts[j] == front[j];
    if name.Some? {
      var i :| 0 <= i < |front| && front[i] == name.value && forall j :: i < j < |front| ==> !IsName(front[j]);
      assert parts[i] == name.value;
    }
  }

  lemma PackageNameIs(path: string, name: string)
    ensures IsPackageName(path, name) <==> name == LastSegment(path)
  {
    LastNameIs(Split(path, '/'));
  }

  /** The import binds `name`: its alias or, without one, the package name of its path; a blank
      or a dot import binds nothing. */
  ghost predicate Binds(spec: ImportSpec, name: string) {
    spec.path != "" &&
    match spec.alias
    case Renamed(alias) => if alias != "" then name == alias else IsPackageName(spec.path, name)
    case NoAlias => IsPackageName(spec.path, name)
    case Blank => false
    case Dot => false
  }

  lemma ImportBinds(spec: ImportSpec, imports: Imports, name: string)
    ensures
      var after := ImportedBy(spec, imports);
      if Binds(spec, name) then name in after && after[name] == spec.path
      else (name in after <==> name in imports) && (name in imports ==> after[name] == imports[name])
  {
    PackageNameIs(spec.path, name);
  }

  /** None of the specs from `c` on binds `name`. */
  ghost predicate NoneBinds(specs: seq<ImportSpec>, c: nat, name: string) {
    forall k :: c <= k < |specs| ==> !Binds(specs[k], name)
  }

  lemma {:induction false} SpecsKeep(specs: seq<ImportSpec>, c: nat, k: nat, imports: Imports, name: string)
    requires c <= k <= |specs| && NoneBinds(specs, c, name)
    ensures
      var before, after := ImportedFirst(specs, c, imports), ImportedFirst(specs, k, imports);
      (name in after <==> name in before) && (name in before ==> after[name] == before[name])
    decreases k
  {
    if c < k {
      SpecsKeep(specs, c, k - 1, imports, name);
      ImportBinds(specs[k - 1], ImportedFirst(specs, k - 1, imports), name);
    }
  }

  /** No import declaration from `i` on, up to declaration `m`, binds `name`. */
  ghost predicate NoImport(f: GoFile, i: nat, m: nat, name: string)
    requires m <= |f.decls|
  {
    forall k :: i <= k < m && f.decls[k].ImportDecl? ==> NoneBinds(f.decls[k].specs, 0, name)
  }

  lemma {:induction false} ImportsKept(f: GoFile, i: nat, m: nat, name: string)
    requires i <= m <= |f.decls| && NoImport(f, i, m, name)
    ensures
      var before, after := ImportsBefore(f, i), ImportsBefore(f, m);
      (name in after <==> name in before) && (name in before ==> after[name] == before[name])
    decreases m
  {
    if i < m {
      ImportsKept(f, i, m - 1, name);
      if f.decls[m - 1].ImportDecl? {
        SpecsKeep(f.decls[m - 1].specs, 0, |f.decls[m - 1].specs|, ImportsBefore(f, m - 1), name);
      }
    }
  }

  /** At declaration `m` the name stands for the package that spec `c` of declaration `i`
      imports: nothing in between binds it again. */
  ghost predicate ImportedAs(f: GoFile, m: nat, i: nat, c: nat, name: string) {
    && i < m <= |f.decls| && f.decls[i].ImportDecl? && c < |f.decls[i].specs|
    && Binds(f.decls[i].specs[c], name) && NoneBinds(f.decls[i].specs, c + 1, name) && NoImport(f, i + 1, m, name)
  }

  lemma ImportedIs(f: GoFile, m: nat, i: nat, c: nat, name: string)
    requires ImportedAs(f, m, i, c, name)
    ensures name in ImportsBefore(f, m) && ImportsBefore(f, m)[name] == f.decls[i].specs[c].path
  {
    var specs, before := f.decls[i].specs, ImportsBefore(f, i);
    ImportBinds(specs[c], ImportedFirst(specs, c, before), name);
    SpecsKeep(specs, c + 1, |specs|, before, name);
    ImportsKept(f, i + 1, m, name);
  }

  lemma NotImported(f: GoFile, m: nat, name: string)
    requires m <= |f.decls| && NoImport(f, 0, m, name)
    ensures name !in ImportsBefore(f, m)
  {
    ImportsKept(f, 0, m, name);
  }

  // ---------------------------------------------------------------- parameters

  /** The type of `r` among the parameters: that of the last one of this name whose type can
      be named; none when there is no such parameter. */
  ghost predicate IsParamType(mod: FQN, imports: Imports, params: seq<Param>, r: string, ty: Option<string>) {
    if ty.Some? then
      exists i :: 0 <= i < |params| && r in params[i].names && TypeName(mod, imports, params[i].ty) == ty.value != ""
                  && forall j :: i < j < |params| && r in params[j].names ==> TypeName(mod, imports, params[j].ty) == ""
    else forall j :: 0 <= j < |params| && r in params[j].names ==> TypeName(mod, imports, params[j].ty) == ""
  }

  lemma {:induction false} BindAllIs(names: seq<string>, ty: string, locals: Locals, r: string)
    ensures Entry(Some(BindAll(names, ty, locals)), r) == if r in names then Some(ty) else Entry(Some(locals), r)
  {
    if names != [] {
      BindAllIs(names[..|names| - 1], ty, locals, r);
      assert names == names[..|names| - 1] + [names[|names| - 1]];
    }
  }

  lemma {:induction false} SeededAppend(mod: FQN, imports: Imports, a: seq<Param>, b: seq<Param>, locals: Locals)
    ensures Seeded(mod, imports, a + b, locals) == Seeded(mod, imports, b, Seeded(mod, imports, a, locals))
  {
    if b == [] {
      assert a + b == a;
    } else {
      var n := |b| - 1;
      SeededAppend(mod, imports, a, b[..n], locals);
      assert (a + b)[..|a + b| - 1] == a + b[..n];
    }
  }

  lemma {:induction false} SeededIs(mod: FQN, imports: Imports, params: seq<Param>, r: string, ty: Option<string>)
    requires IsParamType(mod, imports, params, r, ty)
    ensures Entry(Some(Seeded(mod, imports, params, map[])), r) == ty
  {
    if params != [] {
      var n := |params| - 1;
      var front, named := params[..n], TypeName(mod, imports, params[n].ty);
      if r in params[n].names && named != "" {
        BindAllIs(params[n].names, named, Seeded(mod, imports, front, map[]), r);
      } else {
        EarlierParam(mod, imports, params, r, ty);
        SeededIs(mod, imports, front, r, ty);
        BindAllIs(params[n].names, named, Seeded(mod, imports, front, map[]), r);
      }
    }
  }

  lemma EarlierParam(mod: FQN, imports: Imports, params: seq<Param>, r: string, ty: Option<string>)
    requires params != [] && IsParamType(mod, imports, params, r, ty)
    requires r !in params[|params| - 1].names || TypeName(mod, imports, params[|params| - 1].ty) == ""
    ensures IsParamType(mod, imports, params[..|params| - 1], r, ty)
  {
    var front := params[..|params| - 1];
    if ty.Some? {
      var i :| 0 <= i < |params| && r in params[i].names && TypeName(mod, imports, params[i].ty) == ty.value != ""
               && forall j :: i < j < |params| && r in params[j].names ==> TypeName(mod, imports, params[j].ty) == "";
      assert front[i] == params[i];
    }
  }

  // ---------------------------------------------------------------- in the built graph

  /** The function that declaration `m` of a file defines, as the walk sees it. */
  function BodyEnv(f: GoFile, m: nat, funcs: Funcs): Env
    requires m < |f.decls|
  {
    Env(f, ImportsBefore(f, m), funcs, Owner(f, f.decls[m]))
  }

  /** The receiver and the parameters give `r` this type. */
  ghost predicate StartsAs(f: GoFile, m: nat, r: string, ty: Option<string>)
    requires m < |f.decls| && f.decls[m].FuncDecl?
  {
    IsParamType(f.mod, ImportsBefore(f, m), f.decls[m].recv + f.decls[m].params, r, ty)
  }

  function StartLocals(f: GoFile, m: nat): Option<Locals>
    requires m < |f.decls| && f.decls[m].FuncDecl?
  {
    var imports := ImportsBefore(f, m);
    Some(Seeded(f.mod, imports, f.decls[m].params, Seeded(f.mod, imports, f.decls[m].recv, map[])))
  }

  lemma StartEntry(f: GoFile, m: nat, r: string, ty: Option<string>)
    requires m < |f.decls| && f.decls[m].FuncDecl? && StartsAs(f, m, r, ty)
    ensures Entry(StartLocals(f, m), r) == ty
  {
    SeededAppend(f.mod, ImportsBefore(f, m), f.decls[m].recv, f.decls[m].params, map[]);
    SeededIs(f.mod, ImportsBefore(f, m), f.decls[m].recv + f.decls[m].params, r, ty);
  }

  lemma {:induction false} InFile(f: GoFile, i: nat, k: nat, funcs: Funcs, x: Event)
    requires i < k <= |f.decls| && x in DeclEvents(f, i, funcs)
    ensures x in FirstEvents(f, k, funcs)
    decreases k
  {
    if i < k - 1 {
      InFile(f, i, k - 1, funcs, x);
    }
  }

  lemma {:induction false} InFiles(files: seq<GoFile>, j: nat, k: nat, funcs: Funcs, x: Event)
    requires j < k <= |files| && x in FileEvents(files[j], funcs)
    ensures x in AllEvents(files, k, funcs)
    decreases k
  {
    if j < k - 1 {
      InFiles(files, j, k - 1, funcs, x);
    }
  }

  lemma InBuilt(files: seq<GoFile>, j: nat, m: nat, x: Event)
    requires j < |files| && m < |files[j].decls| && x in DeclEvents(files[j], m, Built(files).funcs)
    ensures x.CallEvent? ==> x.site in Bucket(Built(files).calls, x.site.caller)
    ensures x.ReadEvent? ==> x.access in Bucket(Built(files).fields, x.access.caller)
  {
    var funcs, f := PhaseA(files, |files|), CallerOf(x);
    BuiltBuckets(files, f);
    InFile(files[j], m, |files[j].decls|, funcs, x);
    InFiles(files, j, |files|, funcs, x);
    if x.CallEvent? {
      PickedHas(CallOf(f), AllEvents(files, |files|, funcs), x.site);
    } else {
      PickedHas(ReadOf(f), AllEvents(files, |files|, funcs), x.access);
    }
  }

  /** Statement `at` of function declaration `m` of file `j` holds `e`. */
  ghost predicate Holds(files: seq<GoFile>, j: nat, m: nat, at: nat, e: Expr) {
    && j < |files| && m < |files[j].decls| && files[j].decls[m].FuncDecl?
    && at < |files[j].decls[m].body| && e in Visited(files[j].decls[m].body[at], false)
  }

  lemma BodyEvent(files: seq<GoFile>, j: nat, m: nat, from: nat, at: nat, r: string, e: Expr) returns (x: Event)
    requires Holds(files, j, m, at, e) && from <= at
    ensures x.CallEvent? ==> x.site in Bucket(Built(files).calls, x.site.caller)
    ensures x.ReadEvent? ==> x.access in Bucket(Built(files).fields, x.access.caller)
    ensures
      var env, body := BodyEnv(files[j], m, Built(files).funcs), files[j].decls[m].body;
      Fits(env, e, x, r, Entry(WalkExprs(env, body, from, StartLocals(files[j], m)).locals, r),
           KeepFrom(body, from, at + 1, r))
  {
    var env := BodyEnv(files[j], m, Built(files).funcs);
    BuiltIs(files);
    x := EventOf(env, files[j].decls[m].body, from, at, StartLocals(files[j], m), r, e);
    InBuilt(files, j, m, x);
  }

  /** A call on `r` while its type is that of the parameter or unknown. */
  lemma CallOnRecorded(files: seq<GoFile>, j: nat, m: nat, at: nat, r: string, ty: Option<string>, e: Expr)
    requires Holds(files, j, m, at, e) && IsCallOn(e, r)
    requires StartsAs(files[j], m, r, ty) && KeepFrom(files[j].decls[m].body, 0, at + 1, r)
    ensures
      var env := BodyEnv(files[j], m, Built(files).funcs);
      SiteOf(env, e, CalleeBy(env, e, ty)) in Bucket(Built(files).calls, env.cur)
  {
    var x := BodyEvent(files, j, m, 0, at, r, e);
    StartEntry(files[j], m, r, ty);
  }

  /** A call on a parameter or the receiver is recorded as one of the method of its type. */
  lemma ParameterCall(files: seq<GoFile>, j: nat, m: nat, at: nat, r: string, ty: string, e: Expr)
    requires Holds(files, j, m, at, e) && IsCallOn(e, r)
    requires StartsAs(files[j], m, r, Some(ty)) && KeepFrom(files[j].decls[m].body, 0, at + 1, r)
    ensures
      var env := BodyEnv(files[j], m, Built(files).funcs);
      SiteOf(env, e, ty + "." + e.fn.field) in Bucket(Built(files).calls, env.cur)
  {
    CallOnRecorded(files, j, m, at, r, Some(ty), e);
  }

  /** `name.F()` after an import that binds `name`, where no parameter and no declaration
      gives the name a type: the call is recorded with the imported path and F. */
  lemma PackageCallRecorded(files: seq<GoFile>, j: nat, m: nat, i: nat, c: nat, name: string, at: nat, e: Expr)
    requires Holds(files, j, m, at, e) && IsCallOn(e, name) && e.fn.text == name + "." + e.fn.field && '.' !in name
    requires ImportedAs(files[j], m, i, c, name)
    requires StartsAs(files[j], m, name, None) && KeepFrom(files[j].decls[m].body, 0, at + 1, name)
    ensures
      var env := BodyEnv(files[j], m, Built(files).funcs);
      SiteOf(env, e, files[j].decls[i].specs[c].path + "." + e.fn.field) in Bucket(Built(files).calls, env.cur)
  {
    CallOnRecorded(files, j, m, at, name, None, e);
    ImportedIs(files[j], m, i, c, name);
    Naming.HeadResolved(ImportsBefore(files[j], m), files[j].mod, name, e.fn.field);
  }

  /** A call `F()` of a name that no import binds is recorded as the function F of the package. */
  lemma SamePackageCallRecorded(files: seq<GoFile>, j: nat, m: nat, at: nat, e: Expr, name: string)
    requires Holds(files, j, m, at, e) && e.CallExpr? && e.fn == Ident(name) && '.' !in name
    requires NoImport(files[j], 0, m, name)
    ensures
      var env := BodyEnv(files[j], m, Built(files).funcs);
      SiteOf(env, e, ComposeName(files[j].mod, name, "")) in Bucket(Built(files).calls, env.cur)
  {
    var x := BodyEvent(files, j, m, 0, at, "", e);
    NotImported(files[j], m, name);
    Naming.SamePackageCall(ImportsBefore(files[j], m), files[j].mod, name);
  }

  /** A selector that is not called is recorded with its field, its text and its line. */
  lemma ReadRecorded(files: seq<GoFile>, j: nat, m: nat, at: nat, e: Expr)
    requires Holds(files, j, m, at, e) && e.Selector?
    ensures FieldAccess(Owner(files[j], files[j].decls[m]), e.field, e.text, files[j].file, e.line)
         in Bucket(Built(files).fields, Owner(files[j], files[j].decls[m]))
  {
    var x := BodyEvent(files, j, m, 0, at, "", e);
  }

  // ---------------------------------------------------------------- inferred types

  /** Statement `at` of the body is `r := f()`, and a later statement holds a call on r, before
      anything gives r another type. */
  ghost predicate DeclaresThenCalls(body: seq<Expr>, at: nat, r: string, later: nat, e: Expr) {
    && at < later < |body|
    && body[at].ShortVar? && FirstIdent(body[at].lhs) == Some(r)
    && |body[at].rhs| == 1 && body[at].rhs[0].CallExpr?
    && KeepFrom(body[at].lhs, 0, |body[at].lhs|, r) && Keeps(body[at].rhs[0], r)
    && KeepFrom(body, at + 1, later + 1, r)
    && IsCallOn(e, r) && e in Visited(body[later], false)
  }

  function CalleeOf(env: Env, decl: Expr): FQN
    requires decl.ShortVar? && |decl.rhs| == 1 && decl.rhs[0].CallExpr?
  {
    ResolveGoCallee(env.imports, env.f.mod, decl.rhs[0].fn.text)
  }

  /** The result type that the declaration `r := f()` gives r. */
  function ResultType(env: Env, decl: Expr): string
    requires decl.ShortVar? && |decl.rhs| == 1 && decl.rhs[0].CallExpr?
  {
    var callee := CalleeOf(env, decl);
    if callee in env.funcs then env.funcs[callee].returnType else ""
  }

  lemma TypedAfter(env: Env, decl: Expr, locals: Option<Locals>, r: string)
    requires decl.ShortVar? && |decl.rhs| == 1 && decl.rhs[0].CallExpr? && FirstIdent(decl.lhs) == Some(r)
    requires locals.Some? && ResultType(env, decl) != ""
    requires KeepFrom(decl.lhs, 0, |decl.lhs|, r) && Keeps(decl.rhs[0], r)
    ensures Entry(WalkExpr(env, decl, false, locals).locals, r) == Some(ResultType(env, decl))
  {
    var start := Inferred(env, decl, locals);
    EntryKeptIn(env, decl.lhs, 0, |decl.lhs|, start, r);
    EntryKeptIn(env, decl.rhs, 0, 1, WalkExprs(env, decl.lhs, |decl.lhs|, start).locals, r);
  }

  lemma {:induction false} StaysTracked(env: Env, e: Expr, isCallee: bool, locals: Option<Locals>)
    requires locals.Some?
    ensures WalkExpr(env, e, isCallee, locals).locals.Some?
    decreases e, 0
  {
    match e
    case Ident(_) =>
    case Selector(_, operand, _, _) => StaysTracked(env, operand, false, locals);
    case CallExpr(_, fn, args, _) =>
      StaysTracked(env, fn, true, locals);
      StayTracked(env, args, |args|, WalkExpr(env, fn, true, locals).locals);
    case ShortVar(_, lhs, rhs) =>
      StayTracked(env, lhs, |lhs|, Inferred(env, e, locals));
      StayTracked(env, rhs, |rhs|, WalkExprs(env, lhs, |lhs|, Inferred(env, e, locals)).locals);
    case Inner(_, parts) => StayTracked(env, parts, |parts|, locals);
  }

  lemma {:induction false} StayTracked(env: Env, es: seq<Expr>, k: nat, locals: Option<Locals>)
    requires k <= |es| && locals.Some?
    ensures WalkExprs(env, es, k, locals).locals.Some?
    decreases es, k
  {
    if k > 0 {
      StayTracked(env, es, k - 1, locals);
      StaysTracked(env, es[k - 1], false, WalkExprs(env, es, k - 1, locals).locals);
    }
  }

  /** Inference across files: where a body holds `r := f()` and later a call on r, and some
      file of the build, wherever it stands, defines f with a known result type, the built
      graph records that call as one of the method of that type. */
  lemma InferredCall(files: seq<GoFile>, i: nat, j: nat, m: nat, at: nat, r: string, later: nat, e: Expr)
    requires UniqueNames(files) && i < |files| && j < |files|
    requires m < |files[j].decls| && files[j].decls[m].FuncDecl?
    requires DeclaresThenCalls(files[j].decls[m].body, at, r, later, e)
    requires
      var callee := CalleeOf(BodyEnv(files[j], m, map[]), files[j].decls[m].body[at]);
      callee in FileNames(files[i]) && FileFuncs(files[i], |files[i].decls|)[callee].returnType != ""
    ensures
      var env := BodyEnv(files[j], m, Built(files).funcs);
      var ty := FileFuncs(files[i], |files[i].decls|)[CalleeOf(env, files[j].decls[m].body[at])].returnType;
      SiteOf(env, e, ty + "." + e.fn.field) in Bucket(Built(files).calls, env.cur)
  {
    var body, env := files[j].decls[m].body, BodyEnv(files[j], m, Built(files).funcs);
    KnownResult(files, i, CalleeOf(env, body[at]));
    TypedInBody(env, body, at, StartLocals(files[j], m), r);
    var x := BodyEvent(files, j, m, at + 1, later, r, e);
  }

  lemma KnownResult(files: seq<GoFile>, i: nat, callee: FQN)
    requires UniqueNames(files) && i < |files| && callee in FileNames(files[i])
    ensures callee in Built(files).funcs && Built(files).funcs[callee] == FileFuncs(files[i], |files[i].decls|)[callee]
  {
    BuiltIs(files);
    PhaseAIs(files, |files|, callee);
  }

  lemma TypedInBody(env: Env, body: seq<Expr>, at: nat, locals: Option<Locals>, r: string)
    requires at < |body| && body[at].ShortVar? && |body[at].rhs| == 1 && body[at].rhs[0].CallExpr?
    requires FirstIdent(body[at].lhs) == Some(r) && locals.Some? && ResultType(env, body[at]) != ""
    requires KeepFrom(body[at].lhs, 0, |body[at].lhs|, r) && Keeps(body[at].rhs[0], r)
    ensures Entry(WalkExprs(env, body, at + 1, locals).locals, r) == Some(ResultType(env, body[at]))
  {
    StayTracked(env, body, at, locals);
    TypedAfter(env, body[at], WalkExprs(env, body, at, locals).locals, r);
  }

  // ---------------------------------------------------------------- registered functions and edges

  /** Declaration `k` defines the function or method of this name, and none after it does. */
  ghost predicate LastDeclaration(f: GoFile, k: nat, fqn: FQN) {
    && k < |f.decls| && f.decls[k].FuncDecl? && ComposeName(f.mod, f.decls[k].name, f.decls[k].recvType) == fqn
    && forall l :: k < l < |f.decls| && f.decls[l].FuncDecl? ==>
         ComposeName(f.mod, f.decls[l].name, f.decls[l].recvType) != fqn
  }

  lemma {:induction false} KeptToEnd(f: GoFile, k: nat, m: nat, fqn: FQN)
    requires LastDeclaration(f, k, fqn) && k < m <= |f.decls|
    ensures fqn in FileFuncs(f, m) && FileFuncs(f, m)[fqn] == NodeOf(f, f.decls[k], ImportsBefore(f, k))
    decreases m
  {
    if k < m - 1 {
      KeptToEnd(f, k, m - 1, fqn);
    }
  }

  /** What the built graph holds of a function that one file defines: the place of its last
      declaration there, no decorators, and its result type by the imports before it. */
  lemma Registered(files: seq<GoFile>, i: nat, k: nat, fqn: FQN)
    requires UniqueNames(files) && i < |files| && LastDeclaration(files[i], k, fqn)
    ensures
      var f, d := files[i], files[i].decls[k];
      && fqn in Built(files).funcs
      && Built(files).funcs[fqn] == FuncNode(fqn, f.file, d.line, [], TypeName(f.mod, ImportsBefore(f, k), d.result))
  {
    KeptToEnd(files[i], k, |files[i].decls|, fqn);
    BuiltIs(files);
    PhaseAIs(files, |files|, fqn);
  }

  lemma DefinedSomewhere(files: seq<GoFile>, i: nat, k: nat)
    requires i < |files| && k < |files[i].decls| && files[i].decls[k].FuncDecl?
    ensures Owner(files[i], files[i].decls[k]) in Built(files).funcs
  {
    NameIsDiscovered(files[i], k);
    PhaseAHolds(files, |files|);
    BuiltIs(files);
  }

  /** From import to edge: a file calls F of a package that it imports, and a file of that
      package defines F, so the caller has an edge to the definition. */
  lemma PackageCallEdge(files: seq<GoFile>, j: nat, m: nat, i: nat, c: nat, name: string, at: nat, e: Expr,
                        a: nat, k: nat)
    requires Holds(files, j, m, at, e) && IsCallOn(e, name) && e.fn.text == name + "." + e.fn.field && '.' !in name
    requires ImportedAs(files[j], m, i, c, name)
    requires StartsAs(files[j], m, name, None) && KeepFrom(files[j].decls[m].body, 0, at + 1, name)
    requires Owner(files[j], files[j].decls[m]) != ""
    requires a < |files| && files[a].mod == files[j].decls[i].specs[c].path && k < |files[a].decls|
    requires files[a].decls[k].FuncDecl? && files[a].decls[k].name == e.fn.field && files[a].decls[k].recvType == ""
    ensures Edge(CalleeMap(Built(files)), Owner(files[j], files[j].decls[m]), Owner(files[a], files[a].decls[k]))
  {
    var d, caller := Built(files), Owner(files[j], files[j].decls[m]);
    var callee := Owner(files[a], files[a].decls[k]);
    PackageCallRecorded(files, j, m, i, c, name, at, e);
    Naming.ComposedName(files[a].mod, e.fn.field, "");
    DefinedSomewhere(files, a, k);
    EdgeIsCall(d, caller, callee);
    assert SiteOf(BodyEnv(files[j], m, d.funcs), e, callee) in Bucket(d.calls, caller);
  }
}
