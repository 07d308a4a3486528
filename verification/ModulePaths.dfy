/** Paths and dotted module names: which modules relative imports name. Path segments may
    hold dots themselves, so a module name can have more parts than its path. */
module ModulePaths {
  import opened Text
  import opened RelativeImports

  // ---------------------------------------------------------------- dotted parts

  function Last(segs: seq<string>): string
    requires segs != []
  {
    segs[|segs| - 1]
  }

  /** The dotted parts of a list of names, in order. */
  function Parts(segs: seq<string>): (parts: seq<string>)
    ensures forall i :: 0 <= i < |parts| ==> '.' !in parts[i]
  {
    if segs == [] then [] else Parts(WithoutLast(segs)) + Split(Last(segs), '.')
  }

  function Dots(segs: seq<string>): nat {
    if segs == [] then 0 else Dots(WithoutLast(segs)) + Count(Last(segs), '.')
  }

  lemma {:induction false} PartsSize(segs: seq<string>)
    ensures |Parts(segs)| == |segs| + Dots(segs)
  {
    if segs != [] {
      PartsSize(WithoutLast(segs));
      SplitCount(Last(segs), '.');
    }
  }

  lemma {:induction false} PartsAppend(a: seq<string>, b: seq<string>)
    ensures Parts(a + b) == Parts(a) + Parts(b) && Dots(a + b) == Dots(a) + Dots(b)
  {
    if b == [] {
      assert a + b == a;
    } else {
      PartsAppend(a, WithoutLast(b));
      assert WithoutLast(a + b) == a + WithoutLast(b) && Last(a + b) == Last(b);
      ConcatAssociative(Parts(a), Parts(WithoutLast(b)), Split(Last(b), '.'));
    }
  }

  lemma PartsOne(seg: string)
    ensures Parts([seg]) == Split(seg, '.') && Dots([seg]) == Count(seg, '.')
  {
    assert WithoutLast([seg]) == [];
  }

  lemma JoinLast(segs: seq<string>, sep: char)
    requires |segs| > 1
    ensures Join(segs, sep) == Join(WithoutLast(segs), sep) + [sep] + Last(segs)
  {
    assert segs == WithoutLast(segs) + [Last(segs)];
    JoinAppend(WithoutLast(segs), [Last(segs)], sep);
  }

  /** The joined name has exactly these parts. */
  lemma {:induction false} PartsOfJoin(segs: seq<string>)
    requires segs != []
    ensures Split(Join(segs, '.'), '.') == Parts(segs)
  {
    if |segs| == 1 {
      assert segs == [segs[0]];
      PartsOne(segs[0]);
    } else {
      PartsOfJoin(WithoutLast(segs));
      JoinLast(segs, '.');
      SplitAt(Join(WithoutLast(segs), '.'), '.', Last(segs));
    }
  }

  /** Names are equal exactly when their parts are. */
  lemma SameName(a: seq<string>, b: seq<string>)
    requires a != [] && b != []
    ensures Join(a, '.') == Join(b, '.') <==> Parts(a) == Parts(b)
  {
    PartsOfJoin(a);
    PartsOfJoin(b);
    JoinSplit(Join(a, '.'), '.');
    JoinSplit(Join(b, '.'), '.');
  }

  lemma {:induction false} PartsOfDotFree(segs: seq<string>)
    requires forall i :: 0 <= i < |segs| ==> '.' !in segs[i]
    ensures Parts(segs) == segs && Dots(segs) == 0
  {
    if segs != [] {
      PartsOfDotFree(WithoutLast(segs));
      SplitPlain(Last(segs), '.');
      CountZero(Last(segs), '.');
    }
  }

  /** The empty name stands for the root, however it came about. */
  function Rooted(parts: seq<string>): seq<string> {
    if |parts| == 1 && parts[0] == "" then [] else parts
  }

  lemma JoinEmpty(parts: seq<string>)
    ensures Join(parts, '.') == "" <==> Rooted(parts) == []
  {
    if |parts| == 1 {
      assert parts == [parts[0]];
    }
  }

  lemma SegmentsOf(parts: seq<string>)
    requires forall i :: 0 <= i < |parts| ==> '.' !in parts[i]
    ensures Segments(Join(parts, '.')) == Rooted(parts)
  {
    JoinEmpty(parts);
    if Rooted(parts) != [] {
      SplitJoin(parts, '.');
    }
  }

  /** The parent package drops the last part. */
  lemma ParentSegments(segs: seq<string>)
    requires segs != []
    ensures Segments(ParentPackage(Join(segs, '.'))) == Rooted(WithoutLast(Parts(segs)))
  {
    PartsOfJoin(segs);
    PartsSize(segs);
    SegmentsOf(WithoutLast(Parts(segs)));
  }

  // ---------------------------------------------------------------- paths

  /** Segments of a path. */
  predicate Path(segs: seq<string>) {
    forall i :: 0 <= i < |segs| ==> segs[i] != "" && '/' !in segs[i]
  }

  lemma PathInit(dir: seq<string>, name: string)
    requires Path(dir + [name])
    ensures Path(dir) && name != "" && '/' !in name
  {
    assert forall i :: 0 <= i < |dir| ==> dir[i] == (dir + [name])[i];
    assert (dir + [name])[|dir|] == name;
  }

  lemma SplitPath(segs: seq<string>)
    requires Path(segs) && segs != []
    ensures Split(Join(segs, '/'), '/') == segs
  {
    SplitJoin(segs, '/');
  }

  lemma SuffixHas(s: string, suffix: string, c: char)
    requires HasSuffix(s, suffix) && c in suffix
    ensures c in s
  {
    var i :| 0 <= i < |suffix| && suffix[i] == c;
    assert s[|s| - |suffix|..][i] == c;
  }

  lemma SuffixOfSum(s: string, ext: string)
    ensures HasSuffix(s + ext, ext) && TrimSuffix(s + ext, ext) == s
  {
  }

  lemma SuffixOfSums(s: string, suffix: string, ext: string)
    ensures HasSuffix(s + ext, suffix + ext) <==> HasSuffix(s, suffix)
  {
    if |suffix| <= |s| {
      assert (s + ext)[|s| - |suffix|..] == s[|s| - |suffix|..] + ext;
      assert (suffix + ext)[..|suffix|] == suffix && (s[|s| - |suffix|..] + ext)[..|suffix|] == s[|s| - |suffix|..];
    }
  }

  /** The segments of a module: a file named `stem` below the root stands for its directory. */
  function ModuleSegments(dir: seq<string>, name: string, stem: string): seq<string> {
    if dir != [] && name == stem then dir else dir + [name]
  }

  function PathOf(dir: seq<string>, name: string): string {
    Join(dir + [name], '/')
  }

  lemma PathBelow(dir: seq<string>, name: string)
    ensures PathOf(dir, name) == if dir == [] then name else Join(dir, '/') + ['/'] + name
  {
    if dir == [] {
      assert dir + [name] == [name];
    } else {
      JoinAppend(dir, [name], '/');
    }
  }

  /** Trimming the stem of a package file from a path. */
  lemma TrimStem(dir: seq<string>, name: string, stem: string)
    requires '/' !in name && '/' !in stem
    ensures HasSuffix(PathOf(dir, name), "/" + stem) <==> dir != [] && name == stem
    ensures TrimSuffix(PathOf(dir, name), "/" + stem) == Join(ModuleSegments(dir, name, stem), '/')
  {
    PathBelow(dir, name);
    if dir == [] {
      NoSlash(name, stem);
    } else {
      StemAfter(Join(dir, '/'), name, stem);
    }
  }

  lemma NoSlash(name: string, stem: string)
    requires '/' !in name
    ensures !HasSuffix(name, "/" + stem)
  {
    if HasSuffix(name, "/" + stem) {
      SuffixHas(name, "/" + stem, '/');
    }
  }

  lemma StemAfter(head: string, name: string, stem: string)
    requires '/' !in name && '/' !in stem
    ensures HasSuffix(head + ['/'] + name, "/" + stem) <==> name == stem
    ensures TrimSuffix(head + ['/'] + name, "/" + stem) == if name == stem then head else head + ['/'] + name
  {
    assert "/" + stem == ['/'] + stem;
    if name == stem {
      assert head + ['/'] + name == head + ("/" + stem);
      SuffixOfSum(head, "/" + stem);
    } else if HasSuffix(head + ['/'] + name, "/" + stem) {
      EndsInStem(head + ['/'] + name, stem);
      SplitAt(head, '/', name);
      SplitPlain(name, '/');
    }
  }

  lemma EndsInStem(path: string, stem: string)
    requires HasSuffix(path, "/" + stem) && '/' !in stem
    ensures var parts := Split(path, '/'); |parts| > 1 && Last(parts) == stem
  {
    var head := path[..|path| - |"/" + stem|];
    assert "/" + stem == ['/'] + stem;
    assert path == head + ("/" + stem) == head + ['/'] + stem;
    SplitAt(head, '/', stem);
    SplitPlain(stem, '/');
  }

  /** Trimming an extension from a path trims it from the file name. */
  lemma TrimName(dir: seq<string>, name: string, ext: string)
    requires '/' !in ext
    ensures TrimSuffix(PathOf(dir, name), ext) == PathOf(dir, TrimSuffix(name, ext))
  {
    PathBelow(dir, name);
    PathBelow(dir, TrimSuffix(name, ext));
    if dir != [] {
      TrimAfter(Join(dir, '/') + ['/'], name, ext);
    }
  }

  lemma TrimAfter(head: string, name: string, ext: string)
    requires head != "" && head[|head| - 1] == '/' && '/' !in ext
    ensures TrimSuffix(head + name, ext) == head + TrimSuffix(name, ext)
  {
    var s := head + name;
    assert s[|head| - 1] == '/';
    SuffixChars(s, ext);
    if |ext| <= |name| {
      assert s[|s| - |ext|..] == name[|name| - |ext|..];
    }
  }

  lemma SuffixChars(s: string, suffix: string)
    ensures HasSuffix(s, suffix) ==> forall i :: |s| - |suffix| <= i < |s| ==> s[i] in suffix
  {
    if HasSuffix(s, suffix) {
      forall i | |s| - |suffix| <= i < |s| ensures s[i] in suffix {
        assert s[i] == s[|s| - |suffix|..][i - |s| + |suffix|];
      }
    }
  }
}
