/** Import arithmetic: dotted package names climbed by dots and by `../` segments. */
module RelativeImports {
  import opened Text

  // ---------------------------------------------------------------- Python

  /** The package a relative import with `dots` dots anchors against; None past the root. */
  function PythonRelativeBase(pkg: FQN, dots: int): Option<FQN> {
    if dots <= 0 then Some(pkg)
    else
      var pop := dots - 1;
      if pkg == "" then (if pop == 0 then Some("") else None)
      else
        var parts := Split(pkg, '.');
        if pop > |parts| then None
        else if pop == 0 then Some(pkg)
        else Some(Join(Climb(parts, pop), '.'))
  }

  /** The absolute module name of a relative import, or "" when it leaves the project. */
  function RelativeModule(pkg: FQN, dots: int, rest: string): string {
    var base := PythonRelativeBase(pkg, dots);
    if base.None? then ""
    else if rest == "" then base.value
    else if base.value == "" then rest
    else base.value + "." + rest
  }

  const INIT_FILE := "__init__.py"

  /** The package of a file: its module for `__init__`, else the module without its last
      segment. */
  function PythonPackage(path: string, mod: FQN): FQN {
    if HasSuffix(path, "/" + INIT_FILE) || (HasSuffix(path, INIT_FILE) && '/' !in path) then mod
    else ParentPackage(mod)
  }

  function ParentPackage(mod: FQN): FQN {
    var parts := Split(mod, '.');
    if |parts| <= 1 then "" else Join(WithoutLast(parts), '.')
  }

  function WithoutLast(parts: seq<string>): seq<string>
    requires parts != []
  {
    parts[..|parts| - 1]
  }

  /** The segments left after climbing `k` levels. */
  function Climb(segments: seq<string>, k: nat): seq<string>
    requires k <= |segments|
  {
    segments[..|segments| - k]
  }

  /** Segments of a package: none for the root. */
  function Segments(pkg: FQN): seq<string> {
    if pkg == "" then [] else Split(pkg, '.')
  }

  /** Names whose segments are not empty, the only ones file paths give. */
  predicate Clean(segments: seq<string>) {
    forall i :: 0 <= i < |segments| ==> segments[i] != "" && '.' !in segments[i]
  }

  /** Clean segments survive joining, the empty list included. */
  lemma SegmentsJoin(segments: seq<string>)
    requires Clean(segments)
    ensures Segments(Join(segments, '.')) == segments
  {
    if segments != [] {
      SplitJoin(segments, '.');
      JoinNotEmpty(segments);
    }
  }

  lemma JoinNotEmpty(segments: seq<string>)
    requires Clean(segments) && segments != []
    ensures Join(segments, '.') != ""
  {
    assert |Join(segments, '.')| >= |segments[0]| > 0;
  }

  /** What one relative climb does to the segments. */
  lemma ClimbDropsSegments(segments: seq<string>, dots: nat)
    requires Clean(segments) && dots >= 1
    ensures PythonRelativeBase(Join(segments, '.'), dots)
         == if dots - 1 <= |segments| then Some(Join(Climb(segments, dots - 1), '.')) else None
  {
    SegmentsJoin(segments);
    BaseOnSegments(Join(segments, '.'), dots);
  }

  lemma BaseOnSegments(pkg: FQN, dots: nat)
    requires dots >= 1
    ensures
      var segments := Segments(pkg);
      PythonRelativeBase(pkg, dots)
      == if dots - 1 <= |segments| then Some(Join(Climb(segments, dots - 1), '.')) else None
  {
    if pkg != "" && dots == 1 {
      JoinSplit(pkg, '.');
      assert Climb(Split(pkg, '.'), 0) == Split(pkg, '.');
    }
  }

  /** Climbing d1 and then d2 dots is climbing d1 + d2 - 1 dots, and fails past the root
      in the same cases. */
  lemma RelativeBaseComposes(segments: seq<string>, d1: nat, d2: nat)
    requires Clean(segments) && d1 >= 1 && d2 >= 1
    ensures
      var pkg := Join(segments, '.');
      var first := PythonRelativeBase(pkg, d1);
      PythonRelativeBase(pkg, d1 + d2 - 1)
      == if first.Some? then PythonRelativeBase(first.value, d2) else None
  {
    ClimbDropsSegments(segments, d1);
    ClimbDropsSegments(segments, d1 + d2 - 1);
    if d1 - 1 <= |segments| {
      var higher := Climb(segments, d1 - 1);
      ClimbDropsSegments(higher, d2);
      if d2 - 1 <= |higher| {
        assert Climb(higher, d2 - 1) == Climb(segments, d1 + d2 - 2);
      }
    }
  }

  // ---------------------------------------------------------------- TypeScript

  /** What a segment loses when it is pushed. */
  function Trimmed(seg: string): string {
    TrimSuffix(TrimSuffix(seg, ".ts"), ".tsx")
  }

  /** One segment of an import source on the stack of package segments. */
  function Step(parts: seq<string>, seg: string): seq<string> {
    if seg == "." || seg == "" then parts
    else if seg == ".." then (if parts == [] then [] else parts[..|parts| - 1])
    else parts + [Trimmed(seg)]
  }

  function Steps(parts: seq<string>, segs: seq<string>): seq<string> {
    if segs == [] then parts else Step(Steps(parts, segs[..|segs| - 1]), segs[|segs| - 1])
  }

  predicate IsRelative(source: string) {
    HasPrefix(source, "./") || HasPrefix(source, "../")
  }

  function ResolvedSource(source: string, pkg: FQN): string {
    if IsRelative(source) then Join(Steps(Segments(pkg), Split(source, '/')), '.') else source
  }

  /** The resolving loop, pushing and popping segments. */
  method ResolveTSImportSource(source: string, pkg: FQN) returns (resolved: string)
    ensures resolved == ResolvedSource(source, pkg)
  {
    if !HasPrefix(source, "./") && !HasPrefix(source, "../") {
      return source;
    }
    var segments := Split(source, '/');
    var parts: seq<string> := [];
    if pkg != "" {
      parts := Split(pkg, '.');
    }
    for i := 0 to |segments|
      invariant parts == Steps(Segments(pkg), segments[..i])
    {
      assert segments[..i + 1][..i] == segments[..i];
      var seg := segments[i];
      if seg == "." || seg == "" {
        continue;
      } else if seg == ".." {
        if |parts| > 0 {
          parts := parts[..|parts| - 1];
        }
      } else {
        seg := TrimSuffix(seg, ".ts");
        seg := TrimSuffix(seg, ".tsx");
        parts := parts + [seg];
      }
    }
    assert segments[..|segments|] == segments;
    return Join(parts, '.');
  }
}
