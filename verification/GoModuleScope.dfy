/** What the Go graph does depend on: module scope shows the order of the files as soon as
    two of them contribute to it, and a repeated function shows which came last. */
module GoModuleScope {
  import opened Text
  import opened Syntax
  import opened CallGraph
  import opened Sorting
  import opened GoBuild
  import opened GoOrder

  // ---------------------------------------------------------------- what a file does at module scope

  /** The expression makes a call, or reads an attribute that is not called. */
  predicate HasCall(e: Expr) {
    match e
    case Ident(_) => false
    case Selector(_, operand, _, _) => HasCall(operand)
    case CallExpr(_, _, _, _) => true
    case ShortVar(_, lhs, rhs) =>
      || (exists i :: 0 <= i < |lhs| && HasCall(lhs[i]))
      || (exists i :: 0 <= i < |rhs| && HasCall(rhs[i]))
    case Inner(_, parts) => exists i :: 0 <= i < |parts| && HasCall(parts[i])
  }

  predicate HasRead(e: Expr, isCallee: bool) {
    match e
    case Ident(_) => false
    case Selector(_, operand, _, _) => !isCallee || HasRead(operand, false)
    case CallExpr(_, fn, args, _) => HasRead(fn, true) || exists i :: 0 <= i < |args| && HasRead(args[i], false)
    case ShortVar(_, lhs, rhs) =>
      || (exists i :: 0 <= i < |lhs| && HasRead(lhs[i], false))
      || (exists i :: 0 <= i < |rhs| && HasRead(rhs[i], false))
    case Inner(_, parts) => exists i :: 0 <= i < |parts| && HasRead(parts[i], false)
  }

  ghost predicate SomeCall(events: seq<Event>) {
    exists e :: e in events && e.CallEvent?
  }

  ghost predicate SomeRead(events: seq<Event>) {
    exists e :: e in events && e.ReadEvent?
  }

  lemma SomeAppend(a: seq<Event>, b: seq<Event>)
    ensures SomeCall(a + b) <==> SomeCall(a) || SomeCall(b)
    ensures SomeRead(a + b) <==> SomeRead(a) || SomeRead(b)
  {
    assert forall e :: e in a + b <==> e in a || e in b;
  }

  /** The walk records a call, or a read, exactly when the expression has one. */
  lemma {:induction false} ExprRecords(env: Env, e: Expr, isCallee: bool, locals: Option<Locals>)
    ensures SomeCall(WalkExpr(env, e, isCallee, locals).events) <==> HasCall(e)
    ensures SomeRead(WalkExpr(env, e, isCallee, locals).events) <==> HasRead(e, isCallee)
    decreases e, 0
  {
    match e
    case Ident(_) =>
    case Selector(_, operand, _, _) =>
      ExprRecords(env, operand, false, locals);
      var own := if isCallee then [] else [ReadEvent(ReadAt(env, e))];
      assert !isCallee ==> own[0] in own;
      SomeAppend(own, WalkExpr(env, operand, false, locals).events);
    case CallExpr(_, fn, args, _) =>
      var called, call := WalkExpr(env, fn, true, locals), CallEvent(CallAt(env, e, locals));
      ExprRecords(env, fn, true, locals);
      ExprsRecord(env, args, |args|, called.locals);
      var rest := WalkExprs(env, args, |args|, called.locals).events;
      SomeAppend(called.events, rest);
      SomeAppend([call], called.events + rest);
      assert call in [call];
    case ShortVar(_, lhs, rhs) =>
      var left := WalkExprs(env, lhs, |lhs|, Inferred(env, e, locals));
      ExprsRecord(env, lhs, |lhs|, Inferred(env, e, locals));
      ExprsRecord(env, rhs, |rhs|, left.locals);
      SomeAppend(left.events, WalkExprs(env, rhs, |rhs|, left.locals).events);
    case Inner(_, parts) => ExprsRecord(env, parts, |parts|, locals);
  }

  lemma {:induction false} ExprsRecord(env: Env, es: seq<Expr>, k: nat, locals: Option<Locals>)
    requires k <= |es|
    ensures SomeCall(WalkExprs(env, es, k, locals).events) <==> exists i :: 0 <= i < k && HasCall(es[i])
    ensures SomeRead(WalkExprs(env, es, k, locals).events) <==> exists i :: 0 <= i < k && HasRead(es[i], false)
    decreases es, k
  {
    if k > 0 {
      var before := WalkExprs(env, es, k - 1, locals);
      ExprsRecord(env, es, k - 1, locals);
      ExprRecords(env, es[k - 1], false, before.locals);
      SomeAppend(before.events, WalkExpr(env, es[k - 1], false, before.locals).events);
    }
  }

  /** At module scope no types are tracked, so the known functions make no difference. */
  lemma {:induction false} ExprIgnoresFuncs(env: Env, funcs: Funcs, e: Expr, isCallee: bool)
    ensures WalkExpr(env, e, isCallee, None) == WalkExpr(env.(funcs := funcs), e, isCallee, None)
    decreases e, 0
  {
    NoLocals(env, e, isCallee);
    match e
    case Ident(_) =>
    case Selector(_, operand, _, _) => ExprIgnoresFuncs(env, funcs, operand, false);
    case CallExpr(_, fn, args, _) =>
      NoLocals(env, fn, true);
      ExprIgnoresFuncs(env, funcs, fn, true);
      ExprsIgnoreFuncs(env, funcs, args, |args|);
    case ShortVar(_, lhs, rhs) =>
      NoLocalsIn(env, lhs, |lhs|);
      ExprsIgnoreFuncs(env, funcs, lhs, |lhs|);
      ExprsIgnoreFuncs(env, funcs, rhs, |rhs|);
    case Inner(_, parts) => ExprsIgnoreFuncs(env, funcs, parts, |parts|);
  }

  lemma {:induction false} ExprsIgnoreFuncs(env: Env, funcs: Funcs, es: seq<Expr>, k: nat)
    requires k <= |es|
    ensures WalkExprs(env, es, k, None) == WalkExprs(env.(funcs := funcs), es, k, None)
    decreases es, k
  {
    if k > 0 {
      ExprsIgnoreFuncs(env, funcs, es, k - 1);
      NoLocalsIn(env, es, k - 1);
      ExprIgnoresFuncs(env, funcs, es[k - 1], false);
    }
  }

  /** What the source of a file says about its module scope. */
  ghost predicate ModuleCalls(f: GoFile) {
    exists i :: 0 <= i < |f.decls| && DeclCalls(f.decls[i])
  }

  predicate DeclCalls(d: Decl) {
    d.OtherDecl? && HasCall(d.expr)
  }

  ghost predicate ModuleReads(f: GoFile) {
    exists i :: 0 <= i < |f.decls| && DeclReads(f.decls[i])
  }

  predicate DeclReads(d: Decl) {
    d.OtherDecl? && HasRead(d.expr, false)
  }

  function DeclShare<T>(pick: Event -> Option<T>, f: GoFile, i: nat, funcs: Funcs): seq<T>
    requires i < |f.decls|
  {
    Picked(pick, DeclEvents(f, i, funcs))
  }

  lemma DeclShareIs(f: GoFile, i: nat, a: Funcs, b: Funcs)
    requires i < |f.decls| && "" !in FileNames(f)
    ensures DeclShare(CallOf(""), f, i, a) == DeclShare(CallOf(""), f, i, b)
    ensures DeclShare(ReadOf(""), f, i, a) == DeclShare(ReadOf(""), f, i, b)
    ensures DeclShare(CallOf(""), f, i, a) != [] <==> DeclCalls(f.decls[i])
    ensures DeclShare(ReadOf(""), f, i, a) != [] <==> DeclReads(f.decls[i])
  {
    PickedSome(CallOf(""), DeclEvents(f, i, a));
    PickedSome(ReadOf(""), DeclEvents(f, i, a));
    DeclWithin(f, i, a);
    if f.decls[i].FuncDecl? {
      NameIsDiscovered(f, i);
      PickedSome(CallOf(""), DeclEvents(f, i, b));
      PickedSome(ReadOf(""), DeclEvents(f, i, b));
      DeclWithin(f, i, b);
    } else if f.decls[i].OtherDecl? {
      ExprRecords(Env(f, ImportsBefore(f, i), a, ""), f.decls[i].expr, false, None);
      ExprIgnoresFuncs(Env(f, ImportsBefore(f, i), a, ""), b, f.decls[i].expr, false);
    }
  }

  function ByDecl(f: GoFile, k: nat, funcs: Funcs): seq<seq<Event>>
    requires k <= |f.decls|
  {
    seq(k, i requires 0 <= i < k => DeclEvents(f, i, funcs))
  }

  lemma {:induction false} FileEventsFlat(f: GoFile, k: nat, funcs: Funcs)
    requires k <= |f.decls|
    ensures FirstEvents(f, k, funcs) == Flat(ByDecl(f, k, funcs))
  {
    if k > 0 {
      FileEventsFlat(f, k - 1, funcs);
      assert ByDecl(f, k, funcs) == ByDecl(f, k - 1, funcs) + [DeclEvents(f, k - 1, funcs)];
      FlatLast(ByDecl(f, k - 1, funcs), DeclEvents(f, k - 1, funcs));
    }
  }

  /** A file's share is the shares of its declarations, in order. */
  lemma ShareIs<T>(pick: Event -> Option<T>, f: GoFile, funcs: Funcs)
    ensures Share(pick, f, funcs) == Flat(DeclShares(pick, f, funcs))
  {
    FileEventsFlat(f, |f.decls|, funcs);
    PickedFlat(pick, ByDecl(f, |f.decls|, funcs));
    assert Each(pick, ByDecl(f, |f.decls|, funcs)) == DeclShares(pick, f, funcs);
  }

  function DeclShares<T>(pick: Event -> Option<T>, f: GoFile, funcs: Funcs): seq<seq<T>> {
    seq(|f.decls|, i requires 0 <= i < |f.decls| => DeclShare(pick, f, i, funcs))
  }

  /** A file's share of module scope does not depend on the known functions, and there is
      one exactly when its source says so. */
  lemma ModuleShare(f: GoFile, a: Funcs, b: Funcs)
    requires "" !in FileNames(f)
    ensures Share(CallOf(""), f, a) == Share(CallOf(""), f, b) && (Share(CallOf(""), f, a) != [] <==> ModuleCalls(f))
    ensures Share(ReadOf(""), f, a) == Share(ReadOf(""), f, b) && (Share(ReadOf(""), f, a) != [] <==> ModuleReads(f))
  {
    forall i | 0 <= i < |f.decls|
      ensures DeclShare(CallOf(""), f, i, a) == DeclShare(CallOf(""), f, i, b)
      ensures DeclShare(ReadOf(""), f, i, a) == DeclShare(ReadOf(""), f, i, b)
      ensures DeclShare(CallOf(""), f, i, a) != [] <==> DeclCalls(f.decls[i])
      ensures DeclShare(ReadOf(""), f, i, a) != [] <==> DeclReads(f.decls[i])
    {
      DeclShareIs(f, i, a, b);
    }
    BothShares(CallOf(""), f, a, b);
    BothShares(ReadOf(""), f, a, b);
  }

  lemma BothShares<T>(pick: Event -> Option<T>, f: GoFile, a: Funcs, b: Funcs)
    requires forall i :: 0 <= i < |f.decls| ==> DeclShare(pick, f, i, a) == DeclShare(pick, f, i, b)
    ensures Share(pick, f, a) == Share(pick, f, b)
    ensures Share(pick, f, a) != [] <==> exists i :: 0 <= i < |f.decls| && DeclShare(pick, f, i, a) != []
  {
    ShareIs(pick, f, a);
    ShareIs(pick, f, b);
    assert DeclShares(pick, f, a) == DeclShares(pick, f, b);
    FlatSome(DeclShares(pick, f, a));
    assert forall i :: 0 <= i < |f.decls| ==> DeclShares(pick, f, a)[i] == DeclShare(pick, f, i, a);
  }

  // ---------------------------------------------------------------- every order of the files

  /** Each file is given once. */
  ghost predicate DistinctFiles(files: seq<GoFile>) {
    forall i, j :: 0 <= i < j < |files| ==> files[i].file != files[j].file
  }

  /** No function has the empty name. */
  ghost predicate ProperNames(files: seq<GoFile>) {
    forall i :: 0 <= i < |files| ==> "" !in FileNames(files[i])
  }

  ghost predicate Reordered(a: seq<GoFile>, b: seq<GoFile>) {
    multiset(a) == multiset(b)
  }

  ghost predicate AtMostOne(files: seq<GoFile>, holds: GoFile -> bool) {
    forall i, j :: 0 <= i < j < |files| ==> !(holds(files[i]) && holds(files[j]))
  }

  function MovedLast<T>(s: seq<T>, i: nat): seq<T>
    requires i < |s|
  {
    s[..i] + s[i + 1..] + [s[i]]
  }

  lemma MovedLastReorders<T>(s: seq<T>, i: nat)
    requires i < |s|
    ensures multiset(MovedLast(s, i)) == multiset(s)
  {
    assert s == s[..i] + [s[i]] + s[i + 1..];
  }

  /** In every order the files are distinct, and names stay proper and unique. */
  lemma ReorderedKeeps(a: seq<GoFile>, b: seq<GoFile>)
    requires DistinctFiles(a) && Reordered(a, b)
    ensures DistinctFiles(b) && (ProperNames(a) ==> ProperNames(b)) && (UniqueNames(a) ==> UniqueNames(b))
  {
    SameElements(a, b);
    if UniqueNames(a) {
      UniqueReordered(a, b);
    }
    forall i, j | 0 <= i < j < |b| ensures b[i].file != b[j].file {
      var p, q := PlacesBefore(a, b, i, j);
    }
    forall i | 0 <= i < |b| && ProperNames(a) ensures "" !in FileNames(b[i]) {
      assert b[i] in a;
    }
  }

  lemma AtMostOneKept(a: seq<GoFile>, b: seq<GoFile>, holds: GoFile -> bool)
    requires Reordered(a, b) && AtMostOne(a, holds)
    ensures AtMostOne(b, holds)
  {
    forall i, j | 0 <= i < j < |b| ensures !(holds(b[i]) && holds(b[j])) {
      var p, q := PlacesBefore(a, b, i, j);
      assert !(holds(a[if p < q then p else q]) && holds(a[if p < q then q else p]));
    }
  }

  /** The graph shows that `last` was the last file: by the last module-scope entries, if it
      has any, and by its functions. */
  ghost predicate ShownBy(d: Snapshot, last: GoFile) {
    var calls, accesses := Bucket(d.calls, ""), Bucket(d.fields, "");
    && (ModuleCalls(last) ==> calls != [] && calls[|calls| - 1].file == last.file)
    && (ModuleReads(last) ==> accesses != [] && accesses[|accesses| - 1].file == last.file)
    && forall name :: name in FileNames(last) ==> name in d.funcs && d.funcs[name].file == last.file
  }

  lemma LastShows(files: seq<GoFile>)
    requires files != [] && ProperNames(files)
    ensures ShownBy(Built(files), files[|files| - 1])
  {
    var n := |files| - 1;
    var last, funcs := files[n], PhaseA(files, n + 1);
    BuiltBuckets(files, "");
    PickedAppend(CallOf(""), AllEvents(files, n, funcs), FileEvents(last, funcs));
    PickedAppend(ReadOf(""), AllEvents(files, n, funcs), FileEvents(last, funcs));
    ModuleShare(last, funcs, funcs);
    ShareIsOwn(last, funcs);
    DiscoveredAddsOwn(last, |last.decls|, PhaseA(files, n));
    FuncsAreOwn(last, |last.decls|);
  }

  lemma ShareIsOwn(file: GoFile, funcs: Funcs)
    ensures forall s :: s in Share(CallOf(""), file, funcs) ==> s.file == file.file
    ensures forall r :: r in Share(ReadOf(""), file, funcs) ==> r.file == file.file
  {
    FirstWithin(file, |file.decls|, funcs);
    forall s | s in Share(CallOf(""), file, funcs) ensures s.file == file.file {
      PickedHas(CallOf(""), FileEvents(file, funcs), s);
    }
    forall r | r in Share(ReadOf(""), file, funcs) ensures r.file == file.file {
      PickedHas(ReadOf(""), FileEvents(file, funcs), r);
    }
  }

  lemma {:induction false} FuncsAreOwn(f: GoFile, k: nat)
    requires k <= |f.decls|
    ensures forall name :: name in FileFuncs(f, k) ==> FileFuncs(f, k)[name].file == f.file
  {
    if k > 0 {
      FuncsAreOwn(f, k - 1);
      var was, d := FileFuncs(f, k - 1), f.decls[k - 1];
      if d.FuncDecl? {
        var node := NodeOf(f, d, ImportsBefore(f, k - 1));
        assert FileFuncs(f, k) == was[node.fqn := node] && node.file == f.file;
      } else {
        assert FileFuncs(f, k) == was;
      }
    }
  }

  /** One contributor at most: the entries are its own, in whatever order. */
  lemma SameModuleScope<T>(pick: Event -> Option<T>, holds: GoFile -> bool, a: seq<GoFile>, b: seq<GoFile>,
                           x: Funcs, y: Funcs)
    requires DistinctFiles(a) && Reordered(a, b) && AtMostOne(a, holds)
    requires forall f :: f in a ==> Contributes(pick, holds, f, x) && Share(pick, f, x) == Share(pick, f, y)
    ensures Picked(pick, AllEvents(a, |a|, x)) == Picked(pick, AllEvents(b, |b|, y))
  {
    SameElements(a, b);
    AtMostOneKept(a, b, holds);
    forall f | f in b ensures Contributes(pick, holds, f, y) {
      assert f in a;
    }
    if i: nat :| i < |a| && holds(a[i]) {
      assert a[i] in b;
      var j: nat :| j < |b| && b[j] == a[i];
      OnlyContributor(pick, holds, a, x, i);
      OnlyContributor(pick, holds, b, y, j);
    } else {
      forall j: nat | j < |b| ensures !holds(b[j]) {
        assert b[j] in a;
      }
      OnlyContributor(pick, holds, a, x, |a|);
      OnlyContributor(pick, holds, b, y, |b|);
    }
  }

  ghost predicate Contributes<T>(pick: Event -> Option<T>, holds: GoFile -> bool, f: GoFile, funcs: Funcs) {
    Share(pick, f, funcs) != [] <==> holds(f)
  }

  lemma OnlyContributor<T>(pick: Event -> Option<T>, holds: GoFile -> bool, files: seq<GoFile>, funcs: Funcs, i: nat)
    requires AtMostOne(files, holds) && forall f :: f in files ==> Contributes(pick, holds, f, funcs)
    requires if i < |files| then holds(files[i]) else forall j: nat :: j < |files| ==> !holds(files[j])
    ensures Picked(pick, AllEvents(files, |files|, funcs)) == if i < |files| then Share(pick, files[i], funcs) else []
  {
    forall j | 0 <= j < |files| && j != i ensures Share(pick, files[j], funcs) == [] {
      assert Contributes(pick, holds, files[j], funcs);
      assert i < |files| ==> !(holds(files[if i < j then i else j]) && holds(files[if i < j then j else i]));
    }
    OnlyShare(pick, files, funcs, i);
  }

  /** Module-scope calls are the same in every order of the files exactly when at most one
      file makes any; the same for reads. */
  lemma ModuleScopeOrderIff(a: seq<GoFile>)
    requires DistinctFiles(a) && ProperNames(a)
    ensures (forall b :: Reordered(a, b) ==> Bucket(Built(b).calls, "") == Bucket(Built(a).calls, ""))
       <==> AtMostOne(a, ModuleCalls)
    ensures (forall b :: Reordered(a, b) ==> Bucket(Built(b).fields, "") == Bucket(Built(a).fields, ""))
       <==> AtMostOne(a, ModuleReads)
  {
    TwoContributorsShow(a);
    forall b | Reordered(a, b)
      ensures AtMostOne(a, ModuleCalls) ==> Bucket(Built(b).calls, "") == Bucket(Built(a).calls, "")
      ensures AtMostOne(a, ModuleReads) ==> Bucket(Built(b).fields, "") == Bucket(Built(a).fields, "")
    {
      OneContributorHides(a, b);
    }
  }

  lemma OneContributorHides(a: seq<GoFile>, b: seq<GoFile>)
    requires DistinctFiles(a) && ProperNames(a) && Reordered(a, b)
    ensures AtMostOne(a, ModuleCalls) ==> Bucket(Built(b).calls, "") == Bucket(Built(a).calls, "")
    ensures AtMostOne(a, ModuleReads) ==> Bucket(Built(b).fields, "") == Bucket(Built(a).fields, "")
  {
    var x, y := PhaseA(a, |a|), PhaseA(b, |b|);
    BuiltBuckets(a, "");
    BuiltBuckets(b, "");
    forall f | f in a
      ensures Contributes(CallOf(""), ModuleCalls, f, x) && Contributes(ReadOf(""), ModuleReads, f, x)
      ensures Share(CallOf(""), f, x) == Share(CallOf(""), f, y) && Share(ReadOf(""), f, x) == Share(ReadOf(""), f, y)
    {
      ModuleShare(f, x, y);
    }
    if AtMostOne(a, ModuleCalls) {
      SameModuleScope(CallOf(""), ModuleCalls, a, b, x, y);
    }
    if AtMostOne(a, ModuleReads) {
      SameModuleScope(ReadOf(""), ModuleReads, a, b, x, y);
    }
  }

  /** Two files that contribute, each moved to the end, give two different results. */
  lemma TwoContributorsShow(a: seq<GoFile>)
    requires DistinctFiles(a) && ProperNames(a)
    ensures (forall b :: Reordered(a, b) ==> Bucket(Built(b).calls, "") == Bucket(Built(a).calls, ""))
        ==> AtMostOne(a, ModuleCalls)
    ensures (forall b :: Reordered(a, b) ==> Bucket(Built(b).fields, "") == Bucket(Built(a).fields, ""))
        ==> AtMostOne(a, ModuleReads)
    ensures (forall b :: Reordered(a, b) ==> Built(b).funcs == Built(a).funcs) ==> UniqueNames(a)
  {
    forall i, j | 0 <= i < j < |a|
      ensures Reordered(a, MovedLast(a, i)) && Reordered(a, MovedLast(a, j))
      ensures ModuleCalls(a[i]) && ModuleCalls(a[j]) ==>
        Bucket(Built(MovedLast(a, i)).calls, "") != Bucket(Built(MovedLast(a, j)).calls, "")
      ensures ModuleReads(a[i]) && ModuleReads(a[j]) ==>
        Bucket(Built(MovedLast(a, i)).fields, "") != Bucket(Built(MovedLast(a, j)).fields, "")
      ensures !(FileNames(a[i]) !! FileNames(a[j])) ==>
        Built(MovedLast(a, i)).funcs != Built(MovedLast(a, j)).funcs
    {
      EachLast(a, i, j);
    }
  }

  lemma EachLast(a: seq<GoFile>, i: nat, j: nat)
    requires DistinctFiles(a) && ProperNames(a) && i < j < |a|
    ensures Reordered(a, MovedLast(a, i)) && Reordered(a, MovedLast(a, j))
    ensures ModuleCalls(a[i]) && ModuleCalls(a[j]) ==>
      Bucket(Built(MovedLast(a, i)).calls, "") != Bucket(Built(MovedLast(a, j)).calls, "")
    ensures ModuleReads(a[i]) && ModuleReads(a[j]) ==>
      Bucket(Built(MovedLast(a, i)).fields, "") != Bucket(Built(MovedLast(a, j)).fields, "")
    ensures !(FileNames(a[i]) !! FileNames(a[j])) ==>
      Built(MovedLast(a, i)).funcs != Built(MovedLast(a, j)).funcs
  {
    MovedLastShows(a, i);
    MovedLastShows(a, j);
  }

  lemma MovedLastShows(a: seq<GoFile>, i: nat)
    requires DistinctFiles(a) && ProperNames(a) && i < |a|
    ensures Reordered(a, MovedLast(a, i)) && ShownBy(Built(MovedLast(a, i)), a[i])
  {
    MovedLastReorders(a, i);
    ReorderedKeeps(a, MovedLast(a, i));
    LastShows(MovedLast(a, i));
  }

  /** The whole graph is the same in every order of the files exactly when no two files
      define the same function, at most one calls at module scope, and at most one reads
      there. */
  lemma GraphOrderIff(a: seq<GoFile>)
    requires DistinctFiles(a) && ProperNames(a)
    ensures (forall b :: Reordered(a, b) ==> Built(b) == Built(a))
       <==> UniqueNames(a) && AtMostOne(a, ModuleCalls) && AtMostOne(a, ModuleReads)
  {
    TwoContributorsShow(a);
    if UniqueNames(a) && AtMostOne(a, ModuleCalls) && AtMostOne(a, ModuleReads) {
      forall b | Reordered(a, b) ensures Built(b) == Built(a) {
        ReorderedKeeps(a, b);
        OneContributorHides(a, b);
        forall f
          ensures Bucket(Built(a).calls, f) == Bucket(Built(b).calls, f)
          ensures Bucket(Built(a).fields, f) == Bucket(Built(b).fields, f)
        {
          FileOrderIrrelevant(a, b, f);
        }
        FileOrderIrrelevant(a, b, "");
        SameBuckets(a, b);
      }
    }
  }

  lemma SameBuckets(a: seq<GoFile>, b: seq<GoFile>)
    requires Built(a).funcs == Built(b).funcs
    requires forall f :: Bucket(Built(a).calls, f) == Bucket(Built(b).calls, f)
    requires forall f :: Bucket(Built(a).fields, f) == Bucket(Built(b).fields, f)
    ensures Built(a) == Built(b)
  {
    BuiltBuckets(a, "");
    BuiltBuckets(b, "");
    forall f
      ensures f in Built(a).calls <==> f in Built(b).calls
      ensures f in Built(a).fields <==> f in Built(b).fields
    {
      BuiltBuckets(a, f);
      BuiltBuckets(b, f);
      assert Bucket(Built(a).calls, f) == Bucket(Built(b).calls, f);
      assert Bucket(Built(a).fields, f) == Bucket(Built(b).fields, f);
    }
    SameMapBuckets(Built(a).calls, Built(b).calls);
    SameMapBuckets(Built(a).fields, Built(b).fields);
  }

  lemma SameMapBuckets<V>(x: map<FQN, seq<V>>, y: map<FQN, seq<V>>)
    requires forall f :: f in x <==> f in y
    requires forall f :: Bucket(x, f) == Bucket(y, f)
    ensures x == y
  {
    assert x.Keys == y.Keys;
    forall f | f in x ensures x[f] == y[f] {
      assert Bucket(x, f) == Bucket(y, f);
    }
    MapsEqual(x, y);
  }

  // ---------------------------------------------------------------- inputs that show it

  lemma RepeatedNameShows(a: seq<GoFile>)
    requires DistinctFiles(a) && ProperNames(a) && !UniqueNames(a)
    ensures exists b :: Reordered(a, b) && Built(b).funcs != Built(a).funcs
  {
    TwoContributorsShow(a);
  }

  lemma TwoCallersShow(a: seq<GoFile>)
    requires DistinctFiles(a) && ProperNames(a) && !AtMostOne(a, ModuleCalls)
    ensures exists b :: Reordered(a, b) && Bucket(Built(b).calls, "") != Bucket(Built(a).calls, "")
  {
    TwoContributorsShow(a);
  }

  /** Two files with one package-level call each. */
  lemma ModuleScopeOrderShows() returns (a: seq<GoFile>)
    ensures DistinctFiles(a) && ProperNames(a) && UniqueNames(a)
    ensures exists b :: Reordered(a, b) && Bucket(Built(b).calls, "") != Bucket(Built(a).calls, "")
  {
    var x, y := OneCall("a.go"), OneCall("b.go");
    assert x.file.path != y.file.path;
    a := [x, y];
    OneCallIsThere("a.go");
    OneCallIsThere("b.go");
    assert !AtMostOne(a, ModuleCalls) by {
      assert ModuleCalls(a[0]) && ModuleCalls(a[1]);
    }
    TwoCallersShow(a);
  }

  function OneCall(path: string): GoFile {
    var node := Node(CallExpression, "f()", 0, 3, Point(0, 0), Point(0, 3), []);
    GoFile(File(path, "f()"), "p", [OtherDecl(CallExpr("f()", Ident("f"), [], node))])
  }

  lemma OneCallIsThere(path: string)
    ensures FileNames(OneCall(path)) == {} && ModuleCalls(OneCall(path))
  {
    var f := OneCall(path);
    assert FileFuncs(f, 0) == map[] && FileFuncs(f, 1) == map[];
    assert DeclCalls(f.decls[0]);
  }

  /** Two files of one package that both declare `init`, which the language allows: the
      later one is kept. */
  lemma RepeatedInitShows() returns (a: seq<GoFile>)
    ensures DistinctFiles(a) && ProperNames(a)
    ensures forall f :: f in a ==> f.mod == "p" && |f.decls| == 1 && f.decls[0].FuncDecl? && f.decls[0].name == "init"
    ensures exists b :: Reordered(a, b) && Built(b).funcs != Built(a).funcs
  {
    var x, y := OneInit("a.go"), OneInit("b.go");
    assert x.file.path != y.file.path;
    a := [x, y];
    InitIsNamed("a.go");
    InitIsNamed("b.go");
    assert !(FileNames(a[0]) !! FileNames(a[1]));
    RepeatedNameShows(a);
  }

  function OneInit(path: string): GoFile {
    GoFile(File(path, ""), "p", [FuncDecl("init", [], "", [], Unknown, [], 1)])
  }

  lemma InitIsNamed(path: string)
    ensures FileNames(OneInit(path)) == {"p" + ['.'] + "init"} && "" !in FileNames(OneInit(path))
  {
    var f := OneInit(path);
    NameIsDiscovered(f, 0);
    assert ["p", "init"][1..] == ["init"];
    assert ComposeName("p", "init", "") == Join(["p", "init"], '.') by {
      assert ["p"] + [] + ["init"] == ["p", "init"];
    }
    assert FileFuncs(f, 0) == map[];
    assert FileFuncs(f, 1).Keys == {ComposeName("p", "init", "")};
  }
}
