/** What relative imports name: for every file, every climb and every target, exactly when
    the import agrees with the module name of the file that it points at. */
module ImportTargets {
  import opened Text
  import opened RelativeImports
  import opened ModulePaths

  // ---------------------------------------------------------------- climbing directories

  /** The last `up` directories. */
  function Climbed(dir: seq<string>, up: nat): seq<string>
    requires up <= |dir|
  {
    dir[|dir| - up..]
  }

  lemma ClimbParts(dir: seq<string>, up: nat)
    requires up <= |dir|
    ensures up + Dots(Climbed(dir, up)) <= |Parts(dir)|
    ensures Parts(Climb(dir, up)) == Parts(dir)[..|Parts(dir)| - up - Dots(Climbed(dir, up))]
  {
    assert dir == Climb(dir, up) + Climbed(dir, up);
    PartsAppend(Climb(dir, up), Climbed(dir, up));
    PartsSize(Climbed(dir, up));
  }

  lemma NotRoot(dir: seq<string>)
    requires Path(dir)
    ensures Rooted(Parts(dir)) == Parts(dir) && |Parts(dir)| >= |dir|
  {
    PartsSize(dir);
    if |dir| == 1 {
      assert dir == [dir[0]];
      PartsOne(dir[0]);
      JoinSplit(dir[0], '.');
    }
  }

  /** The only dot is the first character. */
  predicate LeadingDotOnly(stem: string) {
    stem != "" && stem[0] == '.' && '.' !in stem[1..]
  }

  /** The parts of the package of dir/stem, `stem` being no package file. */
  function PackageParts(dir: seq<string>, stem: string): seq<string> {
    PartsSize(dir + [stem]);
    Rooted(WithoutLast(Parts(dir + [stem])))
  }

  lemma FileParts(dir: seq<string>, stem: string)
    requires Path(dir) && dir != []
    ensures PackageParts(dir, stem) == Parts(dir) + WithoutLast(Split(stem, '.'))
    ensures |PackageParts(dir, stem)| == |Parts(dir)| + Count(stem, '.')
  {
    NotRoot(dir);
    PartsAppend(dir, [stem]);
    PartsOne(stem);
    SplitCount(stem, '.');
    var last := Split(stem, '.');
    assert Parts(dir + [stem])[..|Parts(dir)| + |last| - 1] == Parts(dir) + WithoutLast(last);
  }

  /** At the root the package of a file is the root when its name holds no dot but, at most,
      a leading one. */
  lemma RootFileParts(stem: string)
    ensures PackageParts([], stem) == [] <==> '.' !in stem || LeadingDotOnly(stem)
  {
    PartsOne(stem);
    assert [] + [stem] == [stem];
    CountZero(stem, '.');
    SplitCount(stem, '.');
    if stem != "" && stem[0] == '.' {
      SplitCount(stem[1..], '.');
      CountZero(stem[1..], '.');
    }
  }

  /** Climbing from the package of a plain file reaches the directory `up` levels above it
      exactly when neither the file nor a climbed directory holds a dot. */
  lemma FileAnchor(dir: seq<string>, stem: string, up: nat)
    requires Path(dir) && dir != [] && up <= |dir|
    ensures up <= |PackageParts(dir, stem)|
    ensures Climb(PackageParts(dir, stem), up) == Parts(Climb(dir, up))
       <==> '.' !in stem && Dots(Climbed(dir, up)) == 0
  {
    FileParts(dir, stem);
    NotRoot(dir);
    ClimbParts(dir, up);
    CountZero(stem, '.');
  }

  // ---------------------------------------------------------------- Python files

  /** The module name of a file by its path below the project root. */
  function PythonModule(path: string): FQN {
    Join(Split(TrimSuffix(TrimSuffix(path, ".py"), "/__init__"), '/'), '.')
  }

  const INIT := "__init__"

  /** The path of the file m.py in `dir`. */
  function PythonPath(dir: seq<string>, m: string): string {
    PathOf(dir, m) + ".py"
  }

  /** The module name of a file is its path with dots, `__init__` below the root standing
      for its directory. */
  lemma ModuleOfPythonPath(dir: seq<string>, m: string)
    requires Path(dir + [m])
    ensures PythonModule(PythonPath(dir, m)) == Join(ModuleSegments(dir, m, INIT), '.')
  {
    PathInit(dir, m);
    SuffixOfSum(PathOf(dir, m), ".py");
    TrimStem(dir, m, INIT);
    assert "/" + INIT == "/__init__";
    SplitPath(ModuleSegments(dir, m, INIT));
  }

  /** What the scan root puts in front of a path: nothing for the current directory. */
  predicate ScanRoot(prefix: string) {
    prefix == "" || prefix[|prefix| - 1] == '/'
  }

  /** The package is read off the path that was walked, scan root included. */
  function PackageOf(prefix: string, dir: seq<string>, m: string): FQN {
    PythonPackage(prefix + PythonPath(dir, m), PythonModule(PythonPath(dir, m)))
  }

  /** The file counts as its own package. */
  predicate IsInit(prefix: string, dir: seq<string>, m: string) {
    m == INIT || (prefix == "" && dir == [] && HasSuffix(m, INIT))
  }

  lemma InitIff(prefix: string, dir: seq<string>, m: string)
    requires Path(dir + [m]) && ScanRoot(prefix)
    ensures
      var path := prefix + PythonPath(dir, m);
      HasSuffix(path, "/" + INIT_FILE) || (HasSuffix(path, INIT_FILE) && '/' !in path) <==> IsInit(prefix, dir, m)
  {
    PathInit(dir, m);
    PathBelow(dir, m);
    if dir == [] && prefix == "" {
      assert prefix + PythonPath(dir, m) == m + ".py";
      BareInit(m);
    } else {
      var head := if dir == [] then prefix[..|prefix| - 1] else prefix + Join(dir, '/');
      assert prefix + PythonPath(dir, m) == head + ['/'] + m + ".py";
      InitBelow(head, m);
    }
  }

  lemma InitBelow(head: string, m: string)
    requires '/' !in m
    ensures
      var path := head + ['/'] + m + ".py";
      '/' in path && (HasSuffix(path, "/" + INIT_FILE) <==> m == INIT)
  {
    assert "/" + INIT_FILE == ("/" + INIT) + ".py";
    SuffixOfSums(head + ['/'] + m, "/" + INIT, ".py");
    StemAfter(head, m, INIT);
    assert (head + ['/'] + m + ".py")[|head|] == '/';
  }

  lemma BareInit(m: string)
    requires '/' !in m
    ensures !HasSuffix(m + ".py", "/" + INIT_FILE) && '/' !in m + ".py"
    ensures HasSuffix(m + ".py", INIT_FILE) <==> HasSuffix(m, INIT)
  {
    assert INIT_FILE == INIT + ".py" && "/" + INIT_FILE == ("/" + INIT) + ".py";
    SuffixOfSums(m, "/" + INIT, ".py");
    SuffixOfSums(m, INIT, ".py");
    NoSlash(m, INIT);
  }

  lemma PackageSegments(prefix: string, dir: seq<string>, m: string)
    requires Path(dir + [m]) && ScanRoot(prefix)
    ensures Segments(PackageOf(prefix, dir, m))
         == if !IsInit(prefix, dir, m) then PackageParts(dir, m) else if dir == [] then Split(m, '.') else Parts(dir)
  {
    PathInit(dir, m);
    InitIff(prefix, dir, m);
    ModuleOfPythonPath(dir, m);
    if !IsInit(prefix, dir, m) {
      ParentSegments(dir + [m]);
    } else if dir == [] {
      assert dir + [m] == [m];
    } else {
      NotRoot(dir);
      PartsOfJoin(dir);
      JoinEmpty(dir);
    }
  }

  /** A root file is its own package exactly when it counts as one: by its whole name, or,
      scanned from the current directory, by the end of its name. */
  lemma RootPackage(prefix: string, m: string)
    requires Path([m]) && ScanRoot(prefix)
    ensures PackageOf(prefix, [], m) == m <==> m == INIT || (prefix == "" && HasSuffix(m, INIT))
  {
    assert [] + [m] == [m] && [m][0] == m;
    InitIff(prefix, [], m);
    ModuleOfPythonPath([], m);
    if !IsInit(prefix, [], m) {
      ParentShorter(m);
    }
  }

  lemma ParentShorter(name: FQN)
    requires name != ""
    ensures |ParentPackage(name)| < |name|
  {
    var parts := Split(name, '.');
    JoinSplit(name, '.');
    if |parts| > 1 {
      JoinLast(parts, '.');
    }
  }

  /** Climbing from the package reaches the directory `up` levels above the file. */
  predicate PythonAnchored(prefix: string, dir: seq<string>, m: string, up: nat)
    requires up <= |dir|
  {
    if dir == [] then !IsInit(prefix, dir, m) && ('.' !in m || LeadingDotOnly(m))
    else
      '.' !in m && (Dots(Climbed(dir, up)) == 0 || (up == |dir| && Dots(dir) == 1 && dir[0] != "" && dir[0][0] == '.'))
  }

  lemma PythonAnchor(prefix: string, dir: seq<string>, m: string, up: nat)
    requires Path(dir + [m]) && ScanRoot(prefix) && up <= |dir|
    ensures
      var parts := Segments(PackageOf(prefix, dir, m));
      up <= |parts| && (Rooted(Climb(parts, up)) == Parts(Climb(dir, up)) <==> PythonAnchored(prefix, dir, m, up))
  {
    PathInit(dir, m);
    PackageSegments(prefix, dir, m);
    if dir == [] {
      RootAnchor(prefix, m);
    } else {
      FileParts(dir, INIT);
      SplitPlain(INIT, '.');
      BelowRootAnchor(dir, m, up);
    }
  }

  lemma RootAnchor(prefix: string, m: string)
    requires m != ""
    ensures
      var parts := if IsInit(prefix, [], m) then Split(m, '.') else PackageParts([], m);
      Rooted(Climb(parts, 0)) == [] <==> PythonAnchored(prefix, [], m, 0)
  {
    var parts := if IsInit(prefix, [], m) then Split(m, '.') else PackageParts([], m);
    assert Climb(parts, 0) == parts;
    RootFileParts(m);
    JoinSplit(m, '.');
    JoinEmpty(Split(m, '.'));
  }

  lemma BelowRootAnchor(dir: seq<string>, m: string, up: nat)
    requires Path(dir) && dir != [] && up <= |dir|
    ensures
      var parts := PackageParts(dir, m);
      && up <= |parts|
      && (Rooted(Climb(parts, up)) == Parts(Climb(dir, up)) <==> PythonAnchored("", dir, m, up))
  {
    FileAnchor(dir, m, up);
    NotRoot(Climb(dir, up));
    var reached, wanted := Climb(PackageParts(dir, m), up), Parts(Climb(dir, up));
    assert Rooted(reached) == wanted <==> reached == wanted || (IsEmptyName(reached) && wanted == []);
    if up == |dir| {
      HiddenRoot(dir, m);
      assert Climbed(dir, up) == dir && Climb(dir, up) == [];
    }
  }

  predicate IsEmptyName(parts: seq<string>) {
    |parts| == 1 && parts[0] == ""
  }

  /** Climbing past all directories leaves the empty name when the only dot leads the first. */
  lemma HiddenRoot(dir: seq<string>, m: string)
    requires Path(dir) && dir != []
    ensures
      var parts := PackageParts(dir, m);
      |dir| <= |parts| && (IsEmptyName(Climb(parts, |dir|)) <==> '.' !in m && Dots(dir) == 1 && dir[0][0] == '.')
  {
    FileParts(dir, m);
    NotRoot(dir);
    PartsSize(dir);
    CountZero(m, '.');
    FirstOfParts(dir);
    CountZero(dir[0], '.');
    EmptyHead(dir[0]);
    var parts := PackageParts(dir, m);
    assert parts[0] == Split(dir[0], '.')[0];
  }

  lemma EmptyHead(name: string)
    requires name != ""
    ensures Split(name, '.')[0] == "" <==> name[0] == '.'
  {
  }

  lemma {:induction false} FirstOfParts(dir: seq<string>)
    requires dir != []
    ensures Parts(dir) != [] && Parts(dir)[0] == Split(dir[0], '.')[0] && Dots(dir) >= Count(dir[0], '.')
  {
    if |dir| == 1 {
      assert dir == [dir[0]];
      PartsOne(dir[0]);
    } else {
      FirstOfParts(WithoutLast(dir));
    }
  }

  lemma SameSegments(a: FQN, b: FQN)
    ensures a == b <==> Segments(a) == Segments(b)
    ensures Rooted(Segments(a)) == Segments(a)
  {
    JoinSplit(a, '.');
    JoinSplit(b, '.');
    JoinEmpty(Split(a, '.'));
  }

  /** The package of a file is its directory exactly when no dot says otherwise. */
  lemma PackageIsDirectory(prefix: string, dir: seq<string>, m: string)
    requires Path(dir + [m]) && ScanRoot(prefix)
    ensures PackageOf(prefix, dir, m) == Join(dir, '.') <==> PythonAnchored(prefix, dir, m, 0)
  {
    PathInit(dir, m);
    PythonAnchor(prefix, dir, m, 0);
    DirectorySegments(dir);
    SameSegments(PackageOf(prefix, dir, m), Join(dir, '.'));
    var parts := Segments(PackageOf(prefix, dir, m));
    assert Climb(parts, 0) == parts && Climb(dir, 0) == dir;
  }

  lemma DirectorySegments(dir: seq<string>)
    requires Path(dir)
    ensures Segments(Join(dir, '.')) == Parts(dir)
  {
    NotRoot(dir);
    if dir != [] {
      PartsOfJoin(dir);
      JoinEmpty(dir);
    }
  }

  /** A relative import by the parts of the importer's package. */
  lemma NamedModule(pkg: FQN, up: nat, target: seq<string>)
    requires Clean(target)
    ensures RelativeModule(pkg, up + 1, Join(target, '.'))
         == if up > |Segments(pkg)| then "" else Join(Rooted(Climb(Segments(pkg), up)) + target, '.')
  {
    BaseOnSegments(pkg, up + 1);
    if up <= |Segments(pkg)| {
      var base := Climb(Segments(pkg), up);
      JoinEmpty(base);
      JoinEmpty(target);
      if Rooted(base) != [] && target != [] {
        JoinAppend(base, target, '.');
      }
      assert Rooted(base) + [] == Rooted(base) && [] + target == target;
    }
  }

  /** The name of the module at `place`: of the package, and of the file unless that is an
      `__init__`. */
  predicate IsModuleAt(name: FQN, place: seq<string>) {
    && name == Join(place, '.')
    && (place != [] ==> name == PythonModule(PythonPath(place, INIT)))
    && (place != [] && Last(place) != INIT ==> name == PythonModule(PythonPath(WithoutLast(place), Last(place))))
  }

  lemma ModuleAt(place: seq<string>)
    requires Path(place)
    ensures IsModuleAt(Join(place, '.'), place)
  {
    if place != [] {
      assert place == WithoutLast(place) + [Last(place)];
      ModuleOfPythonPath(place, INIT);
      ModuleOfPythonPath(WithoutLast(place), Last(place));
    }
  }

  /** `from ...a.b import x`, with `up + 1` dots, in the file m.py of `dir`. Within the project
      it names the module at a/b below the up-th parent directory, file or package, exactly
      when the importer is anchored; the dotted rest may be missing. It names nothing exactly
      when it climbs past the package, or to the root without a rest. */
  lemma RelativeModuleNames(prefix: string, dir: seq<string>, m: string, up: nat, target: seq<string>)
    requires Path(dir + [m]) && ScanRoot(prefix) && Path(target) && Clean(target)
    ensures
      var named := RelativeModule(PackageOf(prefix, dir, m), up + 1, Join(target, '.'));
      up <= |dir| ==> (IsModuleAt(named, Climb(dir, up) + target) <==> PythonAnchored(prefix, dir, m, up))
    ensures
      var pkg := PackageOf(prefix, dir, m);
      RelativeModule(pkg, up + 1, Join(target, '.')) == "" <==>
        up > |Segments(pkg)| || (target == [] && Rooted(Climb(Segments(pkg), up)) == [])
  {
    var pkg := PackageOf(prefix, dir, m);
    NamedModule(pkg, up, target);
    if up <= |Segments(pkg)| {
      EmptyName(Rooted(Climb(Segments(pkg), up)), target);
    }
    if up <= |dir| {
      PathInit(dir, m);
      PythonAnchor(prefix, dir, m, up);
      ModuleAt(Climb(dir, up) + target);
      SameBelow(Rooted(Climb(Segments(pkg), up)), Climb(dir, up), target);
    }
  }

  lemma EmptyName(base: seq<string>, target: seq<string>)
    requires Rooted(base) == base && Clean(target)
    ensures Join(base + target, '.') == "" <==> base == [] && target == []
  {
    JoinEmpty(base + target);
    assert |base + target| == 1 && base == [] ==> base + target == target;
  }

  /** Two bases give the same name exactly when their parts are the same. */
  lemma SameBelow(base: seq<string>, dir: seq<string>, target: seq<string>)
    requires Rooted(base) == base && Path(dir) && Clean(target)
    requires forall i :: 0 <= i < |base| ==> '.' !in base[i]
    ensures Join(base + target, '.') == Join(dir + target, '.') <==> base == Parts(dir)
  {
    NotRoot(dir);
    PartsOfDotFree(base);
    PartsAppend(base, target);
    PartsAppend(dir, target);
    if base + target != [] && dir + target != [] {
      SameName(base + target, dir + target);
      CancelLast(base, Parts(dir), Parts(target));
    } else {
      JoinEmpty(base + target);
      JoinEmpty(dir + target);
    }
  }

  lemma CancelLast<T>(a: seq<T>, b: seq<T>, c: seq<T>)
    ensures a + c == b + c <==> a == b
  {
    if a + c == b + c {
      assert |a| == |b|;
      assert a == (a + c)[..|a|] && b == (b + c)[..|b|];
    }
  }

  /** From a file without dots in its path every climb past the root names nothing. */
  lemma NothingPastRoot(prefix: string, dir: seq<string>, m: string, up: nat, target: seq<string>)
    requires Path(dir + [m]) && ScanRoot(prefix) && Path(target) && Clean(target) && up > |dir|
    requires '.' !in m && Dots(dir) == 0 && (dir != [] || !IsInit(prefix, dir, m))
    ensures RelativeModule(PackageOf(prefix, dir, m), up + 1, Join(target, '.')) == ""
  {
    PathInit(dir, m);
    RelativeModuleNames(prefix, dir, m, up, target);
    PackageSegments(prefix, dir, m);
    PartsSize(dir);
    CountZero(m, '.');
    if dir == [] {
      RootFileParts(m);
    } else {
      FileParts(dir, m);
    }
  }

  // ---------------------------------------------------------------- TypeScript files

  /** Strips `.tsx`, `.ts`, `.jsx`, `.js`, each once and in this order. */
  function StripExtensions(path: string): string {
    TrimSuffix(TrimSuffix(TrimSuffix(TrimSuffix(path, ".tsx"), ".ts"), ".jsx"), ".js")
  }

  /** The module name of a file by its path below the project root. */
  function TsModule(path: string): FQN {
    Join(Split(TrimSuffix(StripExtensions(path), "/index"), '/'), '.')
  }

  const INDEX := "index"

  lemma StripName(dir: seq<string>, file: string)
    ensures StripExtensions(PathOf(dir, file)) == PathOf(dir, StripExtensions(file))
  {
    var a := TrimSuffix(file, ".tsx");
    var b := TrimSuffix(a, ".ts");
    var c := TrimSuffix(b, ".jsx");
    TrimName(dir, file, ".tsx");
    TrimName(dir, a, ".ts");
    TrimName(dir, b, ".jsx");
    TrimName(dir, c, ".js");
  }

  /** The module name of any file is its path with dots and without extensions, an index
      file below the root standing for its directory. */
  lemma ModuleOfPath(dir: seq<string>, file: string)
    requires Path(dir + [file])
    ensures TsModule(PathOf(dir, file)) == Join(ModuleSegments(dir, StripExtensions(file), INDEX), '.')
  {
    var stem := StripExtensions(file);
    PathInit(dir, file);
    StripName(dir, file);
    TrimStem(dir, stem, INDEX);
    assert "/" + INDEX == "/index";
    SplitJoin(ModuleSegments(dir, stem, INDEX), '/');
  }

  /** The package that the imports of a file are resolved against. */
  function TsPackage(dir: seq<string>, file: string): FQN {
    ParentPackage(TsModule(PathOf(dir, file)))
  }

  lemma TsPackageSegments(dir: seq<string>, file: string)
    requires Path(dir + [file])
    ensures
      var stem := StripExtensions(file);
      Segments(TsPackage(dir, file))
      == if dir != [] && stem == INDEX then Rooted(WithoutLast(Parts(dir))) else PackageParts(dir, stem)
    ensures dir != [] ==> Parts(dir) != []
  {
    ModuleOfPath(dir, file);
    ParentSegments(ModuleSegments(dir, StripExtensions(file), INDEX));
    PartsSize(dir);
  }

  /** Popping stops at the root. */
  function Popped(parts: seq<string>, up: nat): seq<string> {
    if up <= |parts| then Climb(parts, up) else []
  }

  /** Climbing from the package of the file reaches the directory `up` levels above it: no dot
      is in the way or, for an index file, whose package starts one directory too high, a
      single dot makes up for it, or the root. */
  predicate TsAnchored(dir: seq<string>, stem: string, up: nat)
    requires up <= |dir|
  {
    if dir == [] then '.' !in stem || LeadingDotOnly(stem)
    else if stem == INDEX then Dots(Climbed(dir, up)) == 1 || (up == |dir| && Dots(dir) == 0)
    else '.' !in stem && Dots(Climbed(dir, up)) == 0
  }

  lemma TsAnchor(dir: seq<string>, file: string, up: nat)
    requires Path(dir + [file]) && up <= |dir|
    ensures Popped(Segments(TsPackage(dir, file)), up) == Parts(Climb(dir, up))
       <==> TsAnchored(dir, StripExtensions(file), up)
  {
    PathInit(dir, file);
    TsPackageSegments(dir, file);
    StemAnchor(dir, StripExtensions(file), up);
  }

  lemma StemAnchor(dir: seq<string>, stem: string, up: nat)
    requires Path(dir) && up <= |dir| && (dir != [] && stem == INDEX ==> Parts(dir) != [])
    ensures
      var pkg := if dir != [] && stem == INDEX then Rooted(WithoutLast(Parts(dir))) else PackageParts(dir, stem);
      Popped(pkg, up) == Parts(Climb(dir, up)) <==> TsAnchored(dir, stem, up)
  {
    if dir == [] {
      RootFileAnchor(stem);
    } else if stem == INDEX {
      IndexAnchor(dir, up);
    } else {
      FileAnchor(dir, stem, up);
    }
  }

  lemma RootFileAnchor(stem: string)
    ensures Popped(PackageParts([], stem), 0) == Parts(Climb([], 0)) <==> TsAnchored([], stem, 0)
  {
    RootFileParts(stem);
    assert Climb(PackageParts([], stem), 0) == PackageParts([], stem) && Climb([], 0) == [];
  }

  lemma IndexAnchor(dir: seq<string>, up: nat)
    requires Path(dir) && dir != [] && up <= |dir|
    ensures |Parts(dir)| > 0
    ensures Popped(Rooted(WithoutLast(Parts(dir))), up) == Parts(Climb(dir, up)) <==> TsAnchored(dir, INDEX, up)
  {
    PartsSize(dir);
    PartsSize(Climb(dir, up));
    ClimbParts(dir, up);
    ClimbedDots(dir, up);
    PoppedLength(Parts(dir), up);
    if IsEmptyName(WithoutLast(Parts(dir))) {
      FirstOfParts(dir);
      EmptyHead(dir[0]);
      CountZero(dir[0], '.');
    }
  }

  lemma ClimbedDots(dir: seq<string>, up: nat)
    requires up <= |dir|
    ensures Dots(Climbed(dir, up)) <= Dots(dir) && (up == 0 ==> Dots(Climbed(dir, up)) == 0)
    ensures up == |dir| ==> Dots(Climbed(dir, up)) == Dots(dir)
  {
    if up == |dir| {
      assert Climbed(dir, up) == dir;
    } else {
      FrontAndBack(dir, |dir| - up);
      PartsAppend(Climb(dir, up), Climbed(dir, up));
      assert |Climbed(dir, up)| == up;
    }
  }

  lemma FrontAndBack<T>(s: seq<T>, k: nat)
    requires k <= |s|
    ensures s == s[..k] + s[k..]
  {
  }

  /** How many parts are left, of the front of `all`. */
  lemma PoppedLength(all: seq<string>, up: nat)
    requires all != []
    ensures
      var n := |all| - 1;
      Popped(Rooted(WithoutLast(all)), up) == all[..if IsEmptyName(WithoutLast(all)) || up > n then 0 else n - up]
  {
  }

  /** The package of a file is its directory exactly when the file is no index below the
      root and its name without extension holds no dot or, at the root, a leading one. */
  lemma PackageOfPath(dir: seq<string>, file: string)
    requires Path(dir + [file])
    ensures
      var stem := StripExtensions(file);
      TsPackage(dir, file) == Join(dir, '.') <==>
        (stem != INDEX || dir == []) && ('.' !in stem || (dir == [] && LeadingDotOnly(stem)))
  {
    PathInit(dir, file);
    TsAnchor(dir, file, 0);
    DirectorySegments(dir);
    SameSegments(TsPackage(dir, file), Join(dir, '.'));
    var parts := Segments(TsPackage(dir, file));
    assert Climb(parts, 0) == parts && Climb(dir, 0) == dir && Climbed(dir, 0) == [];
  }

  // ---------------------------------------------------------------- relative sources

  function Ups(k: nat): seq<string> {
    seq(k, _ => "..")
  }

  /** `./`, or `../` once per level. */
  function Lead(up: nat): seq<string> {
    if up == 0 then ["."] else Ups(up)
  }

  /** Segments that a source names rather than steps over. */
  predicate Names(segs: seq<string>) {
    forall i :: 0 <= i < |segs| ==> segs[i] !in {"", ".", ".."} && '/' !in segs[i]
  }

  function AllTrimmed(segs: seq<string>): (ts: seq<string>)
    ensures |ts| == |segs|
  {
    seq(|segs|, i requires 0 <= i < |segs| => Trimmed(segs[i]))
  }

  /** The text of a relative source. */
  function SourceText(up: nat, segs: seq<string>): string {
    Join(Lead(up) + segs, '/')
  }

  lemma {:induction false} UpsPop(parts: seq<string>, k: nat)
    ensures Steps(parts, Ups(k)) == Popped(parts, k)
  {
    if k > 0 {
      UpsPop(parts, k - 1);
      assert Ups(k)[..k - 1] == Ups(k - 1);
    }
  }

  lemma LeadPops(parts: seq<string>, up: nat)
    ensures Steps(parts, Lead(up)) == Popped(parts, up)
  {
    if up == 0 {
      assert Steps(parts, ["."]) == Steps(parts, ["."][..0]) == parts == Climb(parts, 0);
    } else {
      UpsPop(parts, up);
    }
  }

  lemma {:induction false} NamesPush(parts: seq<string>, segs: seq<string>)
    requires Names(segs)
    ensures Steps(parts, segs) == parts + AllTrimmed(segs)
  {
    if segs != [] {
      NamesPush(parts, WithoutLast(segs));
      assert AllTrimmed(segs) == AllTrimmed(WithoutLast(segs)) + [Trimmed(Last(segs))];
      ConcatAssociative(parts, AllTrimmed(WithoutLast(segs)), [Trimmed(Last(segs))]);
    }
  }

  lemma {:induction false} StepsAppend(parts: seq<string>, a: seq<string>, b: seq<string>)
    ensures Steps(parts, a + b) == Steps(Steps(parts, a), b)
  {
    if b == [] {
      assert a + b == a;
    } else {
      StepsAppend(parts, a, WithoutLast(b));
      assert WithoutLast(a + b) == a + WithoutLast(b) && Last(a + b) == Last(b);
    }
  }

  /** Resolving works on the segments of package and source. */
  lemma ResolvedBy(pkg: FQN, up: nat, segs: seq<string>)
    requires Names(segs) && segs != []
    ensures ResolvedSource(SourceText(up, segs), pkg) == Join(Popped(Segments(pkg), up) + AllTrimmed(segs), '.')
  {
    StartsRelative(up, segs);
    SplitJoin(Lead(up) + segs, '/');
    StepsAppend(Segments(pkg), Lead(up), segs);
    LeadPops(Segments(pkg), up);
    NamesPush(Popped(Segments(pkg), up), segs);
  }

  lemma StartsRelative(up: nat, rest: seq<string>)
    requires rest != []
    ensures IsRelative(SourceText(up, rest))
  {
    var segs := Lead(up) + rest;
    assert segs[0] == (if up == 0 then "." else "..") && |segs| > 1;
    if up == 0 {
      assert HasPrefix(Join(segs, '/'), "./");
    } else {
      assert HasPrefix(Join(segs, '/'), "../");
    }
  }

  // ---------------------------------------------------------------- agreement

  /** No directory that the source names loses an ending. */
  predicate DirectoriesKept(target: seq<string>) {
    forall i :: 0 <= i < |target| ==> Trimmed(target[i]) == target[i]
  }

  /** What the source writes last is the file in `place` as its module names it. */
  predicate FileNamed(place: seq<string>, written: string, file: string) {
    var stem := StripExtensions(file);
    Trimmed(written) == stem && !(place != [] && stem == INDEX)
  }

  /** Trimming takes a dot away or nothing. */
  lemma TrimLosesDot(seg: string)
    ensures Trimmed(seg) == seg || Count(Trimmed(seg), '.') < Count(seg, '.')
  {
    EndLosesDot(seg, ".ts");
    EndLosesDot(TrimSuffix(seg, ".ts"), ".tsx");
  }

  lemma EndLosesDot(seg: string, ext: string)
    requires ext != "" && ext[0] == '.'
    ensures TrimSuffix(seg, ext) == seg || Count(TrimSuffix(seg, ext), '.') < Count(seg, '.')
  {
    if HasSuffix(seg, ext) {
      assert seg == TrimSuffix(seg, ext) + ext;
      CountAppend(TrimSuffix(seg, ext), ext, '.');
    }
  }

  lemma {:induction false} TrimmedParts(target: seq<string>)
    ensures Dots(AllTrimmed(target)) <= Dots(target)
    ensures AllTrimmed(target) == target || Dots(AllTrimmed(target)) < Dots(target)
  {
    if target != [] {
      var init, last := WithoutLast(target), Last(target);
      TrimmedParts(init);
      TrimLosesDot(last);
      TrimmedLast(target);
      if AllTrimmed(init) == init && Trimmed(last) == last {
        assert AllTrimmed(target) == init + [last] == target;
      }
    }
  }

  lemma TrimmedLast(target: seq<string>)
    requires target != []
    ensures AllTrimmed(target) == AllTrimmed(WithoutLast(target)) + [Trimmed(Last(target))]
    ensures Dots(AllTrimmed(target)) == Dots(AllTrimmed(WithoutLast(target))) + Count(Trimmed(Last(target)), '.')
  {
    assert AllTrimmed(target) == AllTrimmed(WithoutLast(target)) + [Trimmed(Last(target))];
    PartsAppend(AllTrimmed(WithoutLast(target)), [Trimmed(Last(target))]);
    PartsOne(Trimmed(Last(target)));
  }

  lemma KeptIff(target: seq<string>)
    ensures Parts(AllTrimmed(target)) == Parts(target) <==> DirectoriesKept(target)
  {
    TrimmedParts(target);
    PartsSize(target);
    PartsSize(AllTrimmed(target));
    assert DirectoriesKept(target) <==> AllTrimmed(target) == target;
  }

  /** The parts of the file's own name in its module. */
  function FileNameParts(place: seq<string>, stem: string): seq<string> {
    if place != [] && stem == INDEX then [] else Split(stem, '.')
  }

  lemma NamedIff(place: seq<string>, written: string, file: string)
    ensures Split(Trimmed(written), '.') == FileNameParts(place, StripExtensions(file))
       <==> FileNamed(place, written, file)
  {
    JoinSplit(Trimmed(written), '.');
    JoinSplit(StripExtensions(file), '.');
  }

  lemma ModuleParts(base: seq<string>, target: seq<string>, file: string)
    requires Path(base + target + [file])
    ensures ModuleSegments(base + target, StripExtensions(file), INDEX) != []
    ensures Parts(ModuleSegments(base + target, StripExtensions(file), INDEX))
         == Parts(base) + Parts(target) + FileNameParts(base + target, StripExtensions(file))
  {
    var stem := StripExtensions(file);
    PartsAppend(base, target);
    PartsAppend(base + target, [stem]);
    PartsOne(stem);
    assert Parts(base + target) + [] == Parts(base + target);
  }

  lemma SourceParts(base: seq<string>, target: seq<string>, written: string)
    requires forall i :: 0 <= i < |base| ==> '.' !in base[i]
    ensures Parts(base + AllTrimmed(target + [written]))
         == base + Parts(AllTrimmed(target)) + Split(Trimmed(written), '.')
  {
    assert AllTrimmed(target + [written]) == AllTrimmed(target) + [Trimmed(written)];
    PartsOfDotFree(base);
    PartsAppend(AllTrimmed(target), [Trimmed(written)]);
    PartsAppend(base, AllTrimmed(target + [written]));
    PartsOne(Trimmed(written));
    ConcatAssociative(base, Parts(AllTrimmed(target)), Split(Trimmed(written), '.'));
  }

  /** Of three pairs, given two equal ones, the concatenations are equal exactly when the
      third pair is. */
  lemma ThirdDecides<T>(a: seq<T>, b: seq<T>, c: seq<T>, x: seq<T>, y: seq<T>, z: seq<T>)
    ensures a == x && b == y ==> (a + b + c == x + y + z <==> c == z)
    ensures a == x && c == z ==> (a + b + c == x + y + z <==> b == y)
    ensures b == y && c == z ==> (a + b + c == x + y + z <==> a == x)
  {
    if b == y && c == z {
      CancelLast(a, x, b + c);
      ConcatAssociative(a, b, c);
      ConcatAssociative(x, b, c);
    }
    if a == x && c == z {
      CancelLast(a + b, a + y, c);
      CancelFirst(a, b, y);
    }
    if a == x && b == y {
      CancelFirst(a + b, c, z);
    }
  }

  lemma CancelFirst<T>(a: seq<T>, b: seq<T>, c: seq<T>)
    ensures a + b == a + c <==> b == c
  {
    assert (a + b)[|a|..] == b && (a + c)[|a|..] == c;
  }

  /** Relative imports agree with module names. In dir/file the source that climbs `up` levels
      within the project, then names the directories `target` and last `written`, resolves to
      the module name of targetFile there exactly when three things hold: climbing reaches
      the directory, the directories are kept, and the file is named. Each of them decides
      when the other two hold. */
  lemma RelativeSourceNamesModule(dir: seq<string>, file: string, up: nat,
                                  target: seq<string>, written: string, targetFile: string)
    requires Path(dir + [file]) && up <= |dir|
    requires Path(Climb(dir, up) + target + [targetFile]) && Names(target + [written])
    ensures
      var place := Climb(dir, up) + target;
      var agrees := ResolvedSource(SourceText(up, target + [written]), TsPackage(dir, file))
                    == TsModule(PathOf(place, targetFile));
      var anchored := TsAnchored(dir, StripExtensions(file), up);
      var kept, named := DirectoriesKept(target), FileNamed(place, written, targetFile);
      && (kept && named ==> (agrees <==> anchored))
      && (anchored && named ==> (agrees <==> kept))
      && (anchored && kept ==> (agrees <==> named))
  {
    var base, place := Popped(Segments(TsPackage(dir, file)), up), Climb(dir, up) + target;
    var stem := StripExtensions(targetFile);
    ResolvedBy(TsPackage(dir, file), up, target + [written]);
    ModuleOfPath(place, targetFile);
    SourceParts(base, target, written);
    ModuleParts(Climb(dir, up), target, targetFile);
    SameName(base + AllTrimmed(target + [written]), ModuleSegments(place, stem, INDEX));
    TsAnchor(dir, file, up);
    KeptIff(target);
    NamedIff(place, written, targetFile);
    ThirdDecides(base, Parts(AllTrimmed(target)), Split(Trimmed(written), '.'),
                 Parts(Climb(dir, up)), Parts(target), FileNameParts(place, stem));
  }

  /** A source that names a file never resolves to nothing, however far it climbs: once the
      package has no parts left it resolves to the module of that name at the root. */
  lemma PastRootNamesRoot(pkg: FQN, up: nat, target: seq<string>, written: string, targetFile: string)
    requires Names(target + [written]) && Path(target + [targetFile])
    requires DirectoriesKept(target) && FileNamed(target, written, targetFile)
    ensures
      var resolved := ResolvedSource(SourceText(up, target + [written]), pkg);
      resolved == TsModule(PathOf(target, targetFile)) <==> up >= |Segments(pkg)|
    ensures Trimmed(written) != "" ==> ResolvedSource(SourceText(up, target + [written]), pkg) != ""
  {
    var base, stem := Popped(Segments(pkg), up), StripExtensions(targetFile);
    ResolvedBy(pkg, up, target + [written]);
    assert [] + target == target;
    ModuleOfPath(target, targetFile);
    SourceParts(base, target, written);
    ModuleParts([], target, targetFile);
    SameName(base + AllTrimmed(target + [written]), ModuleSegments(target, stem, INDEX));
    KeptIff(target);
    NamedIff(target, written, targetFile);
    ThirdDecides(base, Parts(AllTrimmed(target)), Split(Trimmed(written), '.'),
                 [], Parts(target), FileNameParts(target, stem));
    if Trimmed(written) != "" {
      NeverNothing(pkg, up, target + [written]);
    }
  }

  lemma NeverNothing(pkg: FQN, up: nat, segs: seq<string>)
    requires Names(segs) && segs != [] && Trimmed(Last(segs)) != ""
    ensures ResolvedSource(SourceText(up, segs), pkg) != ""
  {
    var pushed := Popped(Segments(pkg), up) + AllTrimmed(segs);
    ResolvedBy(pkg, up, segs);
    assert Last(pushed) == Trimmed(Last(segs));
    JoinEmpty(pushed);
  }

  // ---------------------------------------------------------------- written extensions

  predicate IsTsExtension(ext: string) {
    ext == ".tsx" || ext == ".ts" || ext == ".jsx" || ext == ".js"
  }

  /** The name ends in none of the extensions that module names drop. */
  predicate Bare(name: string) {
    !HasSuffix(name, ".tsx") && !HasSuffix(name, ".ts") && !HasSuffix(name, ".jsx") && !HasSuffix(name, ".js")
  }

  /** A name with an extension ends in no other one. */
  lemma OneExtension(name: string, ext: string, other: string)
    requires IsTsExtension(ext) && IsTsExtension(other)
    ensures TrimSuffix(name + ext, other) == if other == ext then name else name + ext
  {
    var s := name + ext;
    if |other| == |ext| {
      assert s[|s| - |other|..] == ext;
    } else {
      assert ext[|ext| - 1] != other[|other| - 1];
      assert s[|s| - 1] == ext[|ext| - 1];
      SuffixLast(s, other);
    }
  }

  lemma SuffixLast(s: string, suffix: string)
    requires suffix != ""
    ensures HasSuffix(s, suffix) ==> s != "" && s[|s| - 1] == suffix[|suffix| - 1]
  {
    if HasSuffix(s, suffix) {
      assert s[|s| - 1] == s[|s| - |suffix|..][|suffix| - 1];
    }
  }

  lemma StripOwn(name: string, ext: string)
    requires Bare(name) && IsTsExtension(ext)
    ensures StripExtensions(name + ext) == name
  {
    OneExtension(name, ext, ".tsx");
    OneExtension(name, ext, ".ts");
    OneExtension(name, ext, ".jsx");
    OneExtension(name, ext, ".js");
  }

  /** A source may leave the extension of the file out, or write `.ts` or `.tsx`, whichever
      the file has; `.js` and `.jsx` are kept and miss it. */
  lemma WrittenExtension(name: string, written: string, ext: string)
    requires Bare(name) && IsTsExtension(ext) && (written == "" || IsTsExtension(written))
    ensures Trimmed(name + written) == StripExtensions(name + ext) <==> written in {"", ".ts", ".tsx"}
  {
    StripOwn(name, ext);
    if written == "" {
      assert name + written == name;
    } else {
      OneExtension(name, written, ".ts");
      OneExtension(name, written, ".tsx");
    }
  }

  // ---------------------------------------------------------------- an input that shows it

  /** Between two files of one directory a source without extension agrees exactly when the
      importer's name holds no dot. */
  lemma Beside(dir: seq<string>, importer: string, name: string)
    requires Path(dir) && dir != [] && Bare(importer) && Bare(name) && Names([importer]) && Names([name])
    requires importer != INDEX && name != INDEX
    ensures ResolvedSource(SourceText(0, [name]), TsPackage(dir, importer + ".ts"))
            == TsModule(PathOf(dir, name + ".ts"))
       <==> '.' !in importer
  {
    StripOwn(importer, ".ts");
    StripOwn(name, ".ts");
    WrittenExtension(name, "", ".ts");
    assert name + "" == name && [importer][0] == importer && [name][0] == name;
    BesideFile(dir, importer + ".ts", name, name + ".ts");
  }

  lemma BesideFile(dir: seq<string>, file: string, written: string, targetFile: string)
    requires Path(dir + [file]) && Path(dir + [targetFile]) && Names([written]) && dir != []
    requires FileNamed(dir, written, targetFile) && StripExtensions(file) != INDEX
    ensures ResolvedSource(SourceText(0, [written]), TsPackage(dir, file)) == TsModule(PathOf(dir, targetFile))
       <==> '.' !in StripExtensions(file)
  {
    assert Climb(dir, 0) == dir && dir + [] == dir && [] + [written] == [written];
    ClimbedDots(dir, 0);
    RelativeSourceNamesModule(dir, file, 0, [], written, targetFile);
  }

  /** In src/user.service.ts the source `./helper` misses src/helper.ts, while in src/helper.ts
      `./user.service` finds src/user.service.ts. */
  lemma DottedFileName() returns (dir: seq<string>, dotted: string, plain: string)
    ensures dir == ["src"] && dotted == "user.service" && plain == "helper"
    ensures ResolvedSource(SourceText(0, [plain]), TsPackage(dir, dotted + ".ts"))
         != TsModule(PathOf(dir, plain + ".ts"))
    ensures ResolvedSource(SourceText(0, [dotted]), TsPackage(dir, plain + ".ts"))
         == TsModule(PathOf(dir, dotted + ".ts"))
  {
    dir, dotted, plain := ["src"], "user.service", "helper";
    DottedIsName(dotted);
    PlainIsName(plain);
    assert '/' !in dir[0];
    Beside(dir, dotted, plain);
    Beside(dir, plain, dotted);
  }

  lemma DottedIsName(name: string)
    requires name == "user.service"
    ensures '.' in name && Bare(name) && Names([name]) && name != INDEX
  {
    assert name[4] == '.' && name[0] == 'u' && |name| == 12;
    EndsOtherwise(name);
  }

  lemma PlainIsName(name: string)
    requires name == "helper"
    ensures '.' !in name && Bare(name) && Names([name]) && name != INDEX
  {
    assert name[0] == 'h' && |name| == 6;
    EndsOtherwise(name);
  }

  lemma EndsOtherwise(name: string)
    requires name != "" && name[|name| - 1] != 'x' && name[|name| - 1] != 's'
    ensures Bare(name)
  {
    SuffixLast(name, ".tsx");
    SuffixLast(name, ".ts");
    SuffixLast(name, ".jsx");
    SuffixLast(name, ".js");
  }
}
