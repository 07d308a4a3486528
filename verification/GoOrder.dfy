/** The Go graph and the order of the files: functions that one file defines, their calls
    and their reads do not depend on it. */
module GoOrder {
  import opened Text
  import opened Syntax
  import opened CallGraph
  import opened Sorting
  import opened GoBuild

  // ---------------------------------------------------------------- what one file contributes

  /** The functions of a file, as if it were the only one. */
  function FileFuncs(f: GoFile, k: nat): Funcs
    requires k <= |f.decls|
  {
    Discovered(f, k, map[]).funcs
  }

  function FileNames(f: GoFile): set<FQN> {
    FileFuncs(f, |f.decls|).Keys
  }

  lemma {:induction false} DiscoveredAddsOwn(f: GoFile, k: nat, funcs: Funcs)
    requires k <= |f.decls|
    ensures Discovered(f, k, funcs).funcs == funcs + FileFuncs(f, k)
    ensures Discovered(f, k, funcs).imports == Discovered(f, k, map[]).imports
  {
    if k > 0 {
      DiscoveredAddsOwn(f, k - 1, funcs);
    }
  }

  function ImportsBefore(f: GoFile, k: nat): Imports
    requires k <= |f.decls|
  {
    Discovered(f, k, map[]).imports
  }

  /** What the walk of declaration `i` records, given the complete map of functions. */
  function DeclEvents(f: GoFile, i: nat, funcs: Funcs): seq<Event>
    requires i < |f.decls|
  {
    match f.decls[i]
    case ImportDecl(_) => []
    case FuncDecl(_, _, _, _, _, _, _) => BodyEvents(f, f.decls[i], ImportsBefore(f, i), funcs)
    case OtherDecl(e) => WalkExpr(Env(f, ImportsBefore(f, i), funcs, ""), e, false, None).events
  }

  function FirstEvents(f: GoFile, k: nat, funcs: Funcs): seq<Event>
    requires k <= |f.decls|
  {
    if k == 0 then [] else FirstEvents(f, k - 1, funcs) + DeclEvents(f, k - 1, funcs)
  }

  function FileEvents(f: GoFile, funcs: Funcs): seq<Event> {
    FirstEvents(f, |f.decls|, funcs)
  }

  /** The state after recording the first `k` declarations. */
  function AfterDecls(f: GoFile, k: nat, d: Snapshot): FileState
    requires k <= |f.decls|
  {
    FileState(ImportsBefore(f, k), RecordAll(d, FirstEvents(f, k, d.funcs)))
  }

  /** Once its functions are registered a file changes no function and records its events. */
  lemma {:induction false} WalkDeclsRecords(f: GoFile, k: nat, d: Snapshot)
    requires k <= |f.decls| && FileNames(f) <= d.funcs.Keys
    ensures WalkDecls(f, k, d) == AfterDecls(f, k, d)
  {
    if k == 0 {
      NoDeclRecords(f, d);
    } else {
      WalkDeclsRecords(f, k - 1, d);
      DeclAfter(f, k, d);
    }
  }

  lemma NoDeclRecords(f: GoFile, d: Snapshot)
    ensures WalkDecls(f, 0, d) == AfterDecls(f, 0, d)
  {
  }

  lemma DeclAfter(f: GoFile, k: nat, d: Snapshot)
    requires 0 < k <= |f.decls| && FileNames(f) <= d.funcs.Keys
    requires WalkDecls(f, k - 1, d) == AfterDecls(f, k - 1, d)
    ensures WalkDecls(f, k, d) == AfterDecls(f, k, d)
  {
    var events := FirstEvents(f, k - 1, d.funcs);
    RecordAllKeepsFuncs(d, events);
    OneDecl(f, k, d, RecordAll(d, events));
    RecordAllAppend(d, events, DeclEvents(f, k - 1, d.funcs));
  }

  lemma OneDecl(f: GoFile, k: nat, d: Snapshot, before: Snapshot)
    requires 0 < k <= |f.decls| && FileNames(f) <= before.funcs.Keys
    requires WalkDecls(f, k - 1, d) == FileState(ImportsBefore(f, k - 1), before)
    ensures WalkDecls(f, k, d) == FileState(ImportsBefore(f, k), RecordAll(before, DeclEvents(f, k - 1, before.funcs)))
  {
    if f.decls[k - 1].FuncDecl? {
      NameIsDiscovered(f, k - 1);
    }
  }

  lemma NameIsDiscovered(f: GoFile, i: nat)
    requires i < |f.decls| && f.decls[i].FuncDecl?
    ensures NodeOf(f, f.decls[i], ImportsBefore(f, i)).fqn in FileNames(f)
  {
    NamesGrow(f, i + 1, |f.decls|);
  }

  lemma {:induction false} NamesGrow(f: GoFile, i: nat, k: nat)
    requires i <= k <= |f.decls|
    ensures FileFuncs(f, i).Keys <= FileFuncs(f, k).Keys
    decreases k
  {
    if i < k {
      NamesGrow(f, i, k - 1);
    }
  }

  // ---------------------------------------------------------------- whole runs

  lemma {:induction false} PhaseAHolds(files: seq<GoFile>, k: nat)
    requires k <= |files|
    ensures forall i :: 0 <= i < k ==> FileNames(files[i]) <= PhaseA(files, k).Keys
  {
    if k > 0 {
      PhaseAHolds(files, k - 1);
      DiscoveredAddsOwn(files[k - 1], |files[k - 1].decls|, PhaseA(files, k - 1));
    }
  }

  /** The events of the first `k` files. */
  function AllEvents(files: seq<GoFile>, k: nat, funcs: Funcs): seq<Event>
    requires k <= |files|
  {
    if k == 0 then [] else AllEvents(files, k - 1, funcs) + FileEvents(files[k - 1], funcs)
  }

  /** The graph after recording the first `k` files. */
  function AfterFiles(files: seq<GoFile>, k: nat, d: Snapshot): Snapshot
    requires k <= |files|
  {
    RecordAll(d, AllEvents(files, k, d.funcs))
  }

  lemma {:induction false} PhaseBRecords(files: seq<GoFile>, k: nat, d: Snapshot)
    requires k <= |files| && forall i :: 0 <= i < |files| ==> FileNames(files[i]) <= d.funcs.Keys
    ensures PhaseB(files, k, d) == AfterFiles(files, k, d)
  {
    if k > 0 {
      PhaseBRecords(files, k - 1, d);
      OneFile(files, k, d);
    }
  }

  lemma OneFile(files: seq<GoFile>, k: nat, d: Snapshot)
    requires 0 < k <= |files| && FileNames(files[k - 1]) <= d.funcs.Keys
    requires PhaseB(files, k - 1, d) == AfterFiles(files, k - 1, d)
    ensures PhaseB(files, k, d) == AfterFiles(files, k, d)
  {
    var before := AllEvents(files, k - 1, d.funcs);
    RecordAllKeepsFuncs(d, before);
    WalkDeclsRecords(files[k - 1], |files[k - 1].decls|, RecordAll(d, before));
    RecordAllAppend(d, before, FileEvents(files[k - 1], d.funcs));
  }

  /** The graph is the map of phase A and the events of phase B: the second phase
      overwrites no function. */
  lemma BuiltIs(files: seq<GoFile>)
    ensures
      var funcs := PhaseA(files, |files|);
      Built(files) == RecordAll(EMPTY.(funcs := funcs), AllEvents(files, |files|, funcs))
      && Built(files).funcs == funcs
  {
    var d := EMPTY.(funcs := PhaseA(files, |files|));
    PhaseAHolds(files, |files|);
    PhaseBRecords(files, |files|, d);
    RecordAllKeepsFuncs(d, AllEvents(files, |files|, d.funcs));
  }

  // ---------------------------------------------------------------- buckets

  function CallerOf(e: Event): FQN {
    if e.CallEvent? then e.site.caller else e.access.caller
  }

  function FileOf(e: Event): File {
    if e.CallEvent? then e.site.file else e.access.file
  }

  /** The entries that `pick` selects, in order. */
  function Picked<T>(pick: Event -> Option<T>, events: seq<Event>): seq<T> {
    if events == [] then []
    else
      var last := pick(events[|events| - 1]);
      Picked(pick, events[..|events| - 1]) + if last.Some? then [last.value] else []
  }

  function CallOf(f: FQN): Event -> Option<CallSite> {
    (e: Event) => if e.CallEvent? && e.site.caller == f then Some(e.site) else None
  }

  function ReadOf(f: FQN): Event -> Option<FieldAccess> {
    (e: Event) => if e.ReadEvent? && e.access.caller == f then Some(e.access) else None
  }

  /** The calls and the reads that `f` makes. */
  function CallsOf(events: seq<Event>, f: FQN): seq<CallSite> {
    Picked(CallOf(f), events)
  }

  function ReadsOf(events: seq<Event>, f: FQN): seq<FieldAccess> {
    Picked(ReadOf(f), events)
  }

  /** Only callers with entries have a key. */
  lemma {:induction false} BucketsOf(d: Snapshot, events: seq<Event>, f: FQN)
    requires d.calls == map[] && d.fields == map[]
    ensures Bucket(RecordAll(d, events).calls, f) == CallsOf(events, f)
    ensures Bucket(RecordAll(d, events).fields, f) == ReadsOf(events, f)
    ensures f in RecordAll(d, events).calls <==> CallsOf(events, f) != []
    ensures f in RecordAll(d, events).fields <==> ReadsOf(events, f) != []
  {
    if events != [] {
      BucketsOf(d, events[..|events| - 1], f);
    }
  }

  lemma {:induction false} PickedAppend<T>(pick: Event -> Option<T>, a: seq<Event>, b: seq<Event>)
    ensures Picked(pick, a + b) == Picked(pick, a) + Picked(pick, b)
  {
    if b == [] {
      assert a + b == a;
    } else {
      var n := |b| - 1;
      PickedAppend(pick, a, b[..n]);
      var all := a + b;
      assert all[..|all| - 1] == a + b[..n] && all[|all| - 1] == b[n];
      ConcatAssociative(Picked(pick, a), Picked(pick, b[..n]), if pick(b[n]).Some? then [pick(b[n]).value] else []);
    }
  }

  /** Picking loses nothing and adds nothing. */
  lemma {:induction false} PickedHas<T>(pick: Event -> Option<T>, events: seq<Event>, x: T)
    ensures x in Picked(pick, events) <==> exists e :: e in events && pick(e) == Some(x)
  {
    if events != [] {
      var n := |events| - 1;
      PickedHas(pick, events[..n], x);
      assert events == events[..n] + [events[n]];
    }
  }

  lemma PickedSome<T>(pick: Event -> Option<T>, events: seq<Event>)
    ensures Picked(pick, events) != [] <==> exists e :: e in events && pick(e).Some?
  {
    if Picked(pick, events) != [] {
      PickedHas(pick, events, Picked(pick, events)[0]);
    }
    if e :| e in events && pick(e).Some? {
      PickedHas(pick, events, pick(e).value);
    }
  }

  function Flat<T>(parts: seq<seq<T>>): seq<T> {
    if parts == [] then [] else Flat(parts[..|parts| - 1]) + parts[|parts| - 1]
  }

  lemma FlatLast<T>(parts: seq<seq<T>>, last: seq<T>)
    ensures Flat(parts + [last]) == Flat(parts) + last
  {
    assert (parts + [last])[..|parts|] == parts;
  }

  lemma {:induction false} FlatSome<T>(parts: seq<seq<T>>)
    ensures Flat(parts) != [] <==> exists i :: 0 <= i < |parts| && parts[i] != []
  {
    if parts != [] {
      FlatSome(parts[..|parts| - 1]);
    }
  }

  /** When all parts but number `i` are empty. */
  lemma {:induction false} FlatOnly<T>(parts: seq<seq<T>>, i: nat)
    requires forall j :: 0 <= j < |parts| && j != i ==> parts[j] == []
    ensures Flat(parts) == if i < |parts| then parts[i] else []
  {
    if parts != [] {
      FlatOnly(parts[..|parts| - 1], i);
    }
  }

  function Each<T>(pick: Event -> Option<T>, parts: seq<seq<Event>>): seq<seq<T>> {
    seq(|parts|, i requires 0 <= i < |parts| => Picked(pick, parts[i]))
  }

  lemma {:induction false} PickedFlat<T>(pick: Event -> Option<T>, parts: seq<seq<Event>>)
    ensures Picked(pick, Flat(parts)) == Flat(Each(pick, parts))
  {
    if parts != [] {
      var n := |parts| - 1;
      PickedFlat(pick, parts[..n]);
      PickedAppend(pick, Flat(parts[..n]), parts[n]);
      assert Each(pick, parts)[..n] == Each(pick, parts[..n]);
    }
  }

  // ---------------------------------------------------------------- what a file records

  /** All events are of this file and name one of these callers. */
  ghost predicate Within(events: seq<Event>, file: File, names: set<FQN>) {
    forall e :: e in events ==> FileOf(e) == file && CallerOf(e) in names
  }

  lemma {:induction false} ExprWithin(env: Env, e: Expr, isCallee: bool, locals: Option<Locals>)
    ensures Within(WalkExpr(env, e, isCallee, locals).events, env.f.file, {env.cur})
    decreases e, 0
  {
    match e
    case Ident(_) =>
    case Selector(_, operand, _, _) => ExprWithin(env, operand, false, locals);
    case CallExpr(_, fn, args, _) =>
      ExprWithin(env, fn, true, locals);
      ExprsWithin(env, args, |args|, WalkExpr(env, fn, true, locals).locals);
    case ShortVar(_, lhs, rhs) =>
      ExprsWithin(env, lhs, |lhs|, Inferred(env, e, locals));
      ExprsWithin(env, rhs, |rhs|, WalkExprs(env, lhs, |lhs|, Inferred(env, e, locals)).locals);
    case Inner(_, parts) => ExprsWithin(env, parts, |parts|, locals);
  }

  lemma {:induction false} ExprsWithin(env: Env, es: seq<Expr>, k: nat, locals: Option<Locals>)
    requires k <= |es|
    ensures Within(WalkExprs(env, es, k, locals).events, env.f.file, {env.cur})
    decreases es, k
  {
    if k > 0 {
      ExprsWithin(env, es, k - 1, locals);
      ExprWithin(env, es[k - 1], false, WalkExprs(env, es, k - 1, locals).locals);
    }
  }

  /** The name under which a declaration's events are recorded. */
  function Owner(f: GoFile, d: Decl): FQN {
    if d.FuncDecl? then ComposeName(f.mod, d.name, d.recvType) else ""
  }

  lemma DeclWithin(f: GoFile, i: nat, funcs: Funcs)
    requires i < |f.decls|
    ensures Within(DeclEvents(f, i, funcs), f.file, {Owner(f, f.decls[i])})
    ensures Owner(f, f.decls[i]) in FileNames(f) + {""}
  {
    var imports := ImportsBefore(f, i);
    match f.decls[i]
    case ImportDecl(_) =>
    case FuncDecl(name, recv, recvType, params, _, body, _) =>
      NameIsDiscovered(f, i);
      var locals := Seeded(f.mod, imports, params, Seeded(f.mod, imports, recv, map[]));
      ExprsWithin(Env(f, imports, funcs, ComposeName(f.mod, name, recvType)), body, |body|, Some(locals));
    case OtherDecl(e) => ExprWithin(Env(f, imports, funcs, ""), e, false, None);
  }

  lemma {:induction false} FirstWithin(f: GoFile, k: nat, funcs: Funcs)
    requires k <= |f.decls|
    ensures Within(FirstEvents(f, k, funcs), f.file, FileNames(f) + {""})
  {
    if k > 0 {
      FirstWithin(f, k - 1, funcs);
      DeclWithin(f, k - 1, funcs);
    }
  }

  /** What a file contributes to the picked entries. */
  function Share<T>(pick: Event -> Option<T>, file: GoFile, funcs: Funcs): seq<T> {
    Picked(pick, FileEvents(file, funcs))
  }

  /** A file contributes nothing to a function it does not define. */
  lemma NoShare(file: GoFile, funcs: Funcs, f: FQN)
    requires f != "" && f !in FileNames(file)
    ensures Share(CallOf(f), file, funcs) == [] && Share(ReadOf(f), file, funcs) == []
  {
    FirstWithin(file, |file.decls|, funcs);
    PickedSome(CallOf(f), FileEvents(file, funcs));
    PickedSome(ReadOf(f), FileEvents(file, funcs));
  }

  function ByFile(files: seq<GoFile>, k: nat, funcs: Funcs): seq<seq<Event>>
    requires k <= |files|
  {
    seq(k, i requires 0 <= i < k => FileEvents(files[i], funcs))
  }

  lemma {:induction false} AllEventsFlat(files: seq<GoFile>, k: nat, funcs: Funcs)
    requires k <= |files|
    ensures AllEvents(files, k, funcs) == Flat(ByFile(files, k, funcs))
  {
    if k > 0 {
      AllEventsFlat(files, k - 1, funcs);
      assert ByFile(files, k, funcs) == ByFile(files, k - 1, funcs) + [FileEvents(files[k - 1], funcs)];
      FlatLast(ByFile(files, k - 1, funcs), FileEvents(files[k - 1], funcs));
    }
  }

  /** When no other file contributes, the entries are what file `i` contributes. */
  lemma OnlyShare<T>(pick: Event -> Option<T>, files: seq<GoFile>, funcs: Funcs, i: nat)
    requires forall j :: 0 <= j < |files| && j != i ==> Share(pick, files[j], funcs) == []
    ensures Picked(pick, AllEvents(files, |files|, funcs)) == if i < |files| then Share(pick, files[i], funcs) else []
  {
    var parts := ByFile(files, |files|, funcs);
    AllEventsFlat(files, |files|, funcs);
    PickedFlat(pick, parts);
    forall j | 0 <= j < |files| ensures Each(pick, parts)[j] == Share(pick, files[j], funcs) {
    }
    FlatOnly(Each(pick, parts), i);
  }

  // ---------------------------------------------------------------- functions defined once

  /** No two files define the same function. */
  ghost predicate UniqueNames(files: seq<GoFile>) {
    forall i, j :: 0 <= i < j < |files| ==> FileNames(files[i]) !! FileNames(files[j])
  }

  /** Phase A in terms of the files as a set. */
  lemma {:induction false} PhaseAIs(files: seq<GoFile>, k: nat, name: FQN)
    requires k <= |files| && UniqueNames(files)
    ensures name in PhaseA(files, k) <==> exists i :: 0 <= i < k && name in FileNames(files[i])
    ensures forall i :: 0 <= i < k && name in FileNames(files[i]) ==>
      PhaseA(files, k)[name] == FileFuncs(files[i], |files[i].decls|)[name]
  {
    if k > 0 {
      PhaseAIs(files, k - 1, name);
      DiscoveredAddsOwn(files[k - 1], |files[k - 1].decls|, PhaseA(files, k - 1));
    }
  }

  /** A function's bucket is what the one file that defines it contributes. */
  lemma BucketOfOwner(files: seq<GoFile>, funcs: Funcs, f: FQN, i: nat)
    requires i < |files| && UniqueNames(files) && f != "" && f in FileNames(files[i])
    ensures CallsOf(AllEvents(files, |files|, funcs), f) == CallsOf(FileEvents(files[i], funcs), f)
    ensures ReadsOf(AllEvents(files, |files|, funcs), f) == ReadsOf(FileEvents(files[i], funcs), f)
  {
    forall j | 0 <= j < |files| && j != i
      ensures Share(CallOf(f), files[j], funcs) == [] && Share(ReadOf(f), files[j], funcs) == []
    {
      assert FileNames(files[if i < j then i else j]) !! FileNames(files[if i < j then j else i]);
      NoShare(files[j], funcs, f);
    }
    OnlyShare(CallOf(f), files, funcs, i);
    OnlyShare(ReadOf(f), files, funcs, i);
  }

  lemma BucketWithoutOwner(files: seq<GoFile>, funcs: Funcs, f: FQN)
    requires f != "" && forall i :: 0 <= i < |files| ==> f !in FileNames(files[i])
    ensures CallsOf(AllEvents(files, |files|, funcs), f) == [] && ReadsOf(AllEvents(files, |files|, funcs), f) == []
  {
    forall j | 0 <= j < |files|
      ensures Share(CallOf(f), files[j], funcs) == [] && Share(ReadOf(f), files[j], funcs) == []
    {
      NoShare(files[j], funcs, f);
    }
    OnlyShare(CallOf(f), files, funcs, |files|);
    OnlyShare(ReadOf(f), files, funcs, |files|);
  }

  ghost predicate Owns(files: seq<GoFile>, i: nat, name: FQN) {
    i < |files| && name in FileNames(files[i])
  }

  /** Any order of the files gives the same functions. */
  lemma SameFuncs(a: seq<GoFile>, b: seq<GoFile>)
    requires UniqueNames(a) && UniqueNames(b) && multiset(a) == multiset(b)
    ensures PhaseA(a, |a|) == PhaseA(b, |b|)
  {
    SameElements(a, b);
    PhaseAIncluded(a, b);
    PhaseAIncluded(b, a);
    assert PhaseA(a, |a|).Keys == PhaseA(b, |b|).Keys;
    MapsEqual(PhaseA(a, |a|), PhaseA(b, |b|));
  }

  lemma PhaseAIncluded(a: seq<GoFile>, b: seq<GoFile>)
    requires UniqueNames(a) && UniqueNames(b) && forall x :: x in a ==> x in b
    ensures forall name :: name in PhaseA(a, |a|) ==>
      name in PhaseA(b, |b|) && PhaseA(b, |b|)[name] == PhaseA(a, |a|)[name]
  {
    forall name | name in PhaseA(a, |a|)
      ensures name in PhaseA(b, |b|) && PhaseA(b, |b|)[name] == PhaseA(a, |a|)[name]
    {
      MovesOver(a, b, name);
    }
  }

  lemma MovesOver(a: seq<GoFile>, b: seq<GoFile>, name: FQN)
    requires UniqueNames(a) && UniqueNames(b) && name in PhaseA(a, |a|)
    requires forall x :: x in a ==> x in b
    ensures name in PhaseA(b, |b|) && PhaseA(b, |b|)[name] == PhaseA(a, |a|)[name]
  {
    PhaseAIs(a, |a|, name);
    PhaseAIs(b, |b|, name);
    var i: nat :| i < |a| && name in FileNames(a[i]);
    var j := OwnerMoves(a, b, name, i);
  }

  lemma OwnerMoves(a: seq<GoFile>, b: seq<GoFile>, name: FQN, i: nat) returns (j: nat)
    requires forall x :: x in a ==> x in b
    requires i < |a| && name in FileNames(a[i])
    ensures j < |b| && b[j] == a[i] && name in FileNames(b[j])
  {
    assert a[i] in b;
    j :| 0 <= j < |b| && b[j] == a[i];
  }

  /** The bucket of a function, whatever the order. */
  lemma SameBucket(a: seq<GoFile>, b: seq<GoFile>, funcs: Funcs, f: FQN)
    requires UniqueNames(a) && UniqueNames(b) && f != ""
    requires forall x :: x in a <==> x in b
    ensures CallsOf(AllEvents(a, |a|, funcs), f) == CallsOf(AllEvents(b, |b|, funcs), f)
    ensures ReadsOf(AllEvents(a, |a|, funcs), f) == ReadsOf(AllEvents(b, |b|, funcs), f)
  {
    if i: nat :| Owns(a, i, f) {
      var j := OwnerMoves(a, b, f, i);
      BucketOfOwner(a, funcs, f, i);
      BucketOfOwner(b, funcs, f, j);
    } else {
      forall j: nat | j < |b| ensures f !in FileNames(b[j]) {
        if f in FileNames(b[j]) {
          var i := OwnerMoves(b, a, f, j);
          assert Owns(a, i, f);
        }
      }
      forall i: nat | i < |a| ensures f !in FileNames(a[i]) {
        assert !Owns(a, i, f);
      }
      BucketWithoutOwner(a, funcs, f);
      BucketWithoutOwner(b, funcs, f);
    }
  }

  /** What one file contributes, order forgotten. */
  function Total<T(==)>(pick: Event -> Option<T>, files: seq<GoFile>, funcs: Funcs): multiset<T> {
    if files == [] then multiset{} else multiset(Share(pick, files[0], funcs)) + Total(pick, files[1..], funcs)
  }

  lemma {:induction false} TotalAppend<T>(pick: Event -> Option<T>, a: seq<GoFile>, b: seq<GoFile>, funcs: Funcs)
    ensures Total(pick, a + b, funcs) == Total(pick, a, funcs) + Total(pick, b, funcs)
  {
    if a == [] {
      assert a + b == b;
    } else {
      var all := a + b;
      assert all[1..] == a[1..] + b && all[0] == a[0];
      TotalAppend(pick, a[1..], b, funcs);
    }
  }

  lemma TotalOne<T>(pick: Event -> Option<T>, file: GoFile, funcs: Funcs)
    ensures Total(pick, [file], funcs) == multiset(Share(pick, file, funcs))
  {
    assert [file][1..] == [];
  }

  lemma {:induction false} PickedUpTo<T>(pick: Event -> Option<T>, files: seq<GoFile>, k: nat, funcs: Funcs)
    requires k <= |files|
    ensures multiset(Picked(pick, AllEvents(files, k, funcs))) == Total(pick, files[..k], funcs)
  {
    if k > 0 {
      PickedUpTo(pick, files, k - 1, funcs);
      PickedAppend(pick, AllEvents(files, k - 1, funcs), FileEvents(files[k - 1], funcs));
      TakeOneMore(files, k);
      TotalAppend(pick, files[..k - 1], [files[k - 1]], funcs);
      TotalOne(pick, files[k - 1], funcs);
    }
  }

  lemma PickedAsMultiset<T>(pick: Event -> Option<T>, files: seq<GoFile>, funcs: Funcs)
    ensures multiset(Picked(pick, AllEvents(files, |files|, funcs))) == Total(pick, files, funcs)
  {
    PickedUpTo(pick, files, |files|, funcs);
    assert files[..|files|] == files;
  }

  lemma {:induction false} TotalOfPermutation<T>(pick: Event -> Option<T>, a: seq<GoFile>, b: seq<GoFile>, funcs: Funcs)
    requires multiset(a) == multiset(b)
    ensures Total(pick, a, funcs) == Total(pick, b, funcs)
    decreases |a|
  {
    SameElements(a, b);
    if a != [] {
      assert a[0] in b;
      var j :| 0 <= j < |b| && b[j] == a[0];
      TakenOut(a, b, j);
      TotalOfPermutation(pick, a[1..], b[..j] + b[j + 1..], funcs);
      TotalWithout(pick, b, j, funcs);
    }
  }

  lemma TotalWithout<T>(pick: Event -> Option<T>, files: seq<GoFile>, j: nat, funcs: Funcs)
    requires j < |files|
    ensures Total(pick, files, funcs)
         == multiset(Share(pick, files[j], funcs)) + Total(pick, files[..j] + files[j + 1..], funcs)
  {
    var left, right := files[..j], files[j + 1..];
    Around(files, j, j + 1);
    assert files[j..j + 1] == [files[j]];
    TotalAppend(pick, left, right, funcs);
    TotalAppend(pick, left, [files[j]] + right, funcs);
    TotalAppend(pick, [files[j]], right, funcs);
    TotalOne(pick, files[j], funcs);
  }

  lemma TakeOneMore<T>(s: seq<T>, k: nat)
    requires 0 < k <= |s|
    ensures s[..k] == s[..k - 1] + [s[k - 1]]
  {
  }

  lemma TakenOut<T>(a: seq<T>, b: seq<T>, j: nat)
    requires a != [] && j < |b| && b[j] == a[0] && multiset(a) == multiset(b)
    ensures multiset(a[1..]) == multiset(b[..j] + b[j + 1..])
  {
    assert a == [a[0]] + a[1..];
    assert b == b[..j] + [b[j]] + b[j + 1..];
    assert multiset(a) == multiset{a[0]} + multiset(a[1..]);
    assert multiset(b) == multiset(b[..j]) + multiset{b[j]} + multiset(b[j + 1..]);
    assert multiset(b[..j] + b[j + 1..]) == multiset(b[..j]) + multiset(b[j + 1..]);
    assert multiset(a[1..]) == multiset(a) - multiset{a[0]};
    assert multiset(b[..j] + b[j + 1..]) == multiset(b) - multiset{b[j]};
  }

  lemma SameAsMultiset<T>(pick: Event -> Option<T>, a: seq<GoFile>, b: seq<GoFile>, funcs: Funcs)
    requires multiset(a) == multiset(b)
    ensures multiset(Picked(pick, AllEvents(a, |a|, funcs))) == multiset(Picked(pick, AllEvents(b, |b|, funcs)))
  {
    PickedAsMultiset(pick, a, funcs);
    PickedAsMultiset(pick, b, funcs);
    TotalOfPermutation(pick, a, b, funcs);
  }

  /** Where an element stands more than once. */
  lemma {:induction false} StandsTwice<T>(s: seq<T>, x: T) returns (i: nat, j: nat)
    requires multiset(s)[x] >= 2
    ensures i < j < |s| && s[i] == x && s[j] == x
  {
    assert s == [s[0]] + s[1..];
    if s[0] == x {
      assert x in multiset(s[1..]);
      var k :| 0 <= k < |s| - 1 && s[1..][k] == x;
      i, j := 0, k + 1;
    } else {
      i, j := StandsTwice(s[1..], x);
      i, j := i + 1, j + 1;
    }
  }

  /** Two places of a sequence before it was reordered. */
  lemma PlacesBefore<T>(a: seq<T>, b: seq<T>, i: nat, j: nat) returns (p: nat, q: nat)
    requires multiset(a) == multiset(b) && i < j < |b|
    ensures p < |a| && q < |a| && p != q && a[p] == b[i] && a[q] == b[j]
  {
    if b[i] == b[j] {
      assert b == b[..i] + [b[i]] + b[i + 1..j] + [b[i]] + b[j + 1..];
      p, q := StandsTwice(a, b[i]);
    } else {
      assert b[i] in multiset(a) && b[j] in multiset(a);
      p :| 0 <= p < |a| && a[p] == b[i];
      q :| 0 <= q < |a| && a[q] == b[j];
    }
  }

  lemma UniqueReordered(a: seq<GoFile>, b: seq<GoFile>)
    requires UniqueNames(a) && multiset(a) == multiset(b)
    ensures UniqueNames(b)
  {
    forall i, j | 0 <= i < j < |b| ensures FileNames(b[i]) !! FileNames(b[j]) {
      var p, q := PlacesBefore(a, b, i, j);
      assert FileNames(a[if p < q then p else q]) !! FileNames(a[if p < q then q else p]);
    }
  }

  /** When no two files define the same function, any order of the files gives the same
      functions, and every function the same calls and the same reads in the same order;
      module scope has the same calls and reads up to order. */
  lemma FileOrderIrrelevant(a: seq<GoFile>, b: seq<GoFile>, f: FQN)
    requires UniqueNames(a) && multiset(a) == multiset(b)
    ensures Built(a).funcs == Built(b).funcs
    ensures f != "" ==> Bucket(Built(a).calls, f) == Bucket(Built(b).calls, f)
    ensures f != "" ==> Bucket(Built(a).fields, f) == Bucket(Built(b).fields, f)
    ensures multiset(Bucket(Built(a).calls, f)) == multiset(Bucket(Built(b).calls, f))
    ensures multiset(Bucket(Built(a).fields, f)) == multiset(Bucket(Built(b).fields, f))
  {
    UniqueReordered(a, b);
    SameFuncs(a, b);
    BuiltBuckets(a, f);
    BuiltBuckets(b, f);
    if f != "" {
      SameElements(a, b);
      SameBucket(a, b, PhaseA(a, |a|), f);
    } else {
      SameAsMultiset(CallOf(f), a, b, PhaseA(a, |a|));
      SameAsMultiset(ReadOf(f), a, b, PhaseA(a, |a|));
    }
  }

  lemma BuiltBuckets(files: seq<GoFile>, f: FQN)
    ensures
      var funcs := PhaseA(files, |files|);
      && Built(files).funcs == funcs && Built(files).suppressions == map[]
      && Bucket(Built(files).calls, f) == CallsOf(AllEvents(files, |files|, funcs), f)
      && Bucket(Built(files).fields, f) == ReadsOf(AllEvents(files, |files|, funcs), f)
      && (f in Built(files).calls <==> Bucket(Built(files).calls, f) != [])
      && (f in Built(files).fields <==> Bucket(Built(files).fields, f) != [])
  {
    var funcs := PhaseA(files, |files|);
    BuiltIs(files);
    BucketsOf(EMPTY.(funcs := funcs), AllEvents(files, |files|, funcs), f);
    RecordAllKeepsFuncs(EMPTY.(funcs := funcs), AllEvents(files, |files|, funcs));
  }
}
