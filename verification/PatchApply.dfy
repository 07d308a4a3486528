/** Replaying line patches on a file, batched per file. */
module PatchApply {
  import opened Text
  import opened Autofix
  import opened Sorting
  import opened Solver

  // ---------------------------------------------------------------- one file

  predicate InRange(lines: seq<string>, p: Patch) {
    0 <= p.line - 1 < |lines|
  }

  /** The patch is for line index `i` and expects what the file holds there. */
  predicate Fits(lines: seq<string>, p: Patch, i: nat)
    requires i < |lines|
  {
    p.line - 1 == i && p.oldLine == lines[i]
  }

  function FirstFit(lines: seq<string>, patches: seq<Patch>, i: nat): (fit: Option<Patch>)
    requires i < |lines|
    ensures fit.Some? ==> fit.value in patches && Fits(lines, fit.value, i)
    ensures fit.None? <==> forall p :: p in patches ==> !Fits(lines, p, i)
  {
    if patches == [] then None
    else if Fits(lines, patches[0], i) then Some(patches[0])
    else FirstFit(lines, patches[1..], i)
  }

  /** Index of the first patch outside the file, or the number of patches. */
  function FirstOutside(lines: seq<string>, patches: seq<Patch>): (k: nat)
    ensures k <= |patches|
    ensures forall j :: 0 <= j < k ==> InRange(lines, patches[j])
    ensures k < |patches| ==> !InRange(lines, patches[k])
  {
    if patches == [] || !InRange(lines, patches[0]) then 0 else 1 + FirstOutside(lines, patches[1..])
  }

  ghost predicate SomeFits(lines: seq<string>, patches: seq<Patch>, i: nat)
    requires i < |lines|
  {
    exists p :: p in patches && Fits(lines, p, i)
  }

  /** The lines some patch fits. */
  ghost function Fitted(lines: seq<string>, patches: seq<Patch>): set<int> {
    set i | 0 <= i < |lines| && SomeFits(lines, patches, i)
  }

  /** A fitted line becomes the new line of the first patch that fits it. */
  function PatchedLine(lines: seq<string>, patches: seq<Patch>, i: nat): string
    requires i < |lines|
  {
    var fit := FirstFit(lines, patches, i);
    if fit.Some? then fit.value.newLine else lines[i]
  }

  function Patched(lines: seq<string>, patches: seq<Patch>): seq<string> {
    seq(|lines|, i requires 0 <= i < |lines| => PatchedLine(lines, patches, i))
  }

  datatype Outcome = Outcome(ok: bool, applied: nat, written: Option<string>)

  /** What one file ends up as, and what is reported about it. */
  ghost function Replay(src: string, patches: seq<Patch>): Outcome {
    var lines := Split(src, '\n');
    var k := FirstOutside(lines, patches);
    var applied := |Fitted(lines, patches[..k])|;
    Outcome(k == |patches|, applied,
            if k == |patches| && applied > 0 then Some(Join(Patched(lines, patches), '\n')) else None)
  }

  lemma {:induction false} FirstFitAppend(lines: seq<string>, patches: seq<Patch>, p: Patch, i: nat)
    requires i < |lines|
    ensures FirstFit(lines, patches + [p], i)
         == if FirstFit(lines, patches, i).Some? then FirstFit(lines, patches, i)
            else if Fits(lines, p, i) then Some(p) else None
  {
    if patches != [] {
      FirstFitAppend(lines, patches[1..], p, i);
      assert (patches + [p])[1..] == patches[1..] + [p];
    }
  }

  /** One more patch changes at most its own line, and only if no earlier one fitted. */
  lemma OneMore(lines: seq<string>, patches: seq<Patch>, k: nat)
    requires k < |patches|
    ensures forall i: nat :: i < |lines| ==>
      FirstFit(lines, patches[..k + 1], i)
      == if FirstFit(lines, patches[..k], i).Some? then FirstFit(lines, patches[..k], i)
         else if Fits(lines, patches[k], i) then Some(patches[k]) else None
  {
    assert patches[..k + 1] == patches[..k] + [patches[k]];
    forall i: nat | i < |lines|
      ensures FirstFit(lines, patches[..k + 1], i)
           == if FirstFit(lines, patches[..k], i).Some? then FirstFit(lines, patches[..k], i)
              else if Fits(lines, patches[k], i) then Some(patches[k]) else None
    {
      FirstFitAppend(lines, patches[..k], patches[k], i);
    }
  }

  /** After the first `k` patches: the lines in the buffer and the indices seen. */
  ghost predicate Progress(lines: seq<string>, patches: seq<Patch>, k: nat, buffer: seq<string>, seen: set<int>) {
    && k <= |patches| && |buffer| == |lines|
    && (forall j :: 0 <= j < k ==> InRange(lines, patches[j]))
    && (forall i :: i in seen <==> 0 <= i < |lines| && FirstFit(lines, patches[..k], i).Some?)
    && forall i :: 0 <= i < |lines| ==> buffer[i] == PatchedLine(lines, patches[..k], i)
  }

  lemma ProgressSkips(lines: seq<string>, patches: seq<Patch>, k: nat, buffer: seq<string>, seen: set<int>)
    requires Progress(lines, patches, k, buffer, seen) && k < |patches| && InRange(lines, patches[k])
    requires patches[k].line - 1 in seen || buffer[patches[k].line - 1] != patches[k].oldLine
    ensures Progress(lines, patches, k + 1, buffer, seen)
  {
    var idx := patches[k].line - 1;
    var fit := FirstFit(lines, patches[..k], idx);
    assert fit.None? ==> buffer[idx] == lines[idx];
    assert fit.None? ==> !Fits(lines, patches[k], idx);
    FitStays(lines, patches, k);
  }

  lemma FitStays(lines: seq<string>, patches: seq<Patch>, k: nat)
    requires k < |patches| && InRange(lines, patches[k])
    requires
      var idx := patches[k].line - 1;
      FirstFit(lines, patches[..k], idx).None? ==> !Fits(lines, patches[k], idx)
    ensures forall i: nat :: i < |lines| ==> FirstFit(lines, patches[..k + 1], i) == FirstFit(lines, patches[..k], i)
  {
    OneMore(lines, patches, k);
  }

  lemma ProgressWrites(lines: seq<string>, patches: seq<Patch>, k: nat, buffer: seq<string>, seen: set<int>)
    requires Progress(lines, patches, k, buffer, seen) && k < |patches| && InRange(lines, patches[k])
    requires patches[k].line - 1 !in seen && buffer[patches[k].line - 1] == patches[k].oldLine
    ensures
      var idx := patches[k].line - 1;
      Progress(lines, patches, k + 1, buffer[idx := patches[k].newLine], seen + {idx})
  {
    OneMore(lines, patches, k);
    var idx := patches[k].line - 1;
    assert FirstFit(lines, patches[..k + 1], idx) == Some(patches[k]);
    forall i | 0 <= i < |lines| && i != idx
      ensures FirstFit(lines, patches[..k + 1], i) == FirstFit(lines, patches[..k], i)
    {
      assert !Fits(lines, patches[k], i);
    }
  }

  lemma ProgressDone(src: string, patches: seq<Patch>, k: nat, buffer: seq<string>, seen: set<int>)
    requires Progress(Split(src, '\n'), patches, k, buffer, seen)
    requires k < |patches| ==> !InRange(Split(src, '\n'), patches[k])
    ensures Replay(src, patches)
         == Outcome(k == |patches|, |seen|, if k == |patches| && |seen| > 0 then Some(Join(buffer, '\n')) else None)
  {
    var lines := Split(src, '\n');
    OutsideAt(lines, patches, k);
    forall i ensures i in seen <==> i in Fitted(lines, patches[..k]) {
      if 0 <= i < |lines| {
        assert FirstFit(lines, patches[..k], i).Some? <==> SomeFits(lines, patches[..k], i);
      }
    }
    assert seen == Fitted(lines, patches[..k]);
    if k == |patches| {
      assert patches[..k] == patches;
      assert buffer == Patched(lines, patches);
    }
  }

  /** The replay loop: lines overwritten in place, a seen map, a counter. */
  method ApplyFilePatches(src: string, patches: seq<Patch>) returns (ok: bool, applied: nat, written: Option<string>)
    ensures Outcome(ok, applied, written) == Replay(src, patches)
  {
    var parts := Split(src, '\n');
    var lines := new string[|parts|](i requires 0 <= i < |parts| => parts[i]);
    var seen: set<int> := {};
    applied := 0;
    for k := 0 to |patches|
      invariant applied == |seen|
      invariant Progress(parts, patches, k, lines[..], seen)
    {
      var p := patches[k];
      var idx := p.line - 1;
      if idx < 0 || idx >= lines.Length {
        ProgressDone(src, patches, k, lines[..], seen);
        return false, applied, None;
      }
      if idx in seen {
        ProgressSkips(parts, patches, k, lines[..], seen);
        continue;
      }
      if lines[idx] != p.oldLine {
        ProgressSkips(parts, patches, k, lines[..], seen);
        continue;
      }
      ProgressWrites(parts, patches, k, lines[..], seen);
      lines[idx] := p.newLine;
      seen := seen + {idx};
      applied := applied + 1;
    }
    ProgressDone(src, patches, |patches|, lines[..], seen);
    if applied == 0 {
      return true, 0, None;
    }
    return true, applied, Some(Join(lines[..], '\n'));
  }

  lemma {:induction false} OutsideAt(lines: seq<string>, patches: seq<Patch>, k: nat)
    requires k <= |patches| && (k < |patches| ==> !InRange(lines, patches[k]))
    requires forall j :: 0 <= j < k ==> InRange(lines, patches[j])
    ensures FirstOutside(lines, patches) == k
  {
  }

  // ---------------------------------------------------------------- batches

  predicate Descending(a: Patch, b: Patch) {
    a.line >= b.line
  }

  /** One patch outside the file means nothing is written. */
  lemma OutsideMeansNoWrite(src: string, patches: seq<Patch>, p: Patch)
    requires p in patches && !InRange(Split(src, '\n'), p)
    ensures !Replay(src, patches).ok && Replay(src, patches).written == None
  {
    if FirstOutside(Split(src, '\n'), patches) == |patches| {
      NoneOutside(Split(src, '\n'), patches);
    }
  }

  lemma NoneOutside(lines: seq<string>, patches: seq<Patch>)
    requires FirstOutside(lines, patches) == |patches|
    ensures forall p :: p in patches ==> InRange(lines, p)
  {
  }

  /** With lines counted from 1 and patches sorted descending, one patch outside the
      file means nothing is applied and nothing is written. */
  lemma OutsideMeansNothing(src: string, patches: seq<Patch>, p: Patch)
    requires SortedBy(Descending, patches) && forall q :: q in patches ==> q.line >= 1
    requires p in patches && !InRange(Split(src, '\n'), p)
    ensures Replay(src, patches) == Outcome(false, 0, None)
  {
    var lines := Split(src, '\n');
    var k := FirstOutside(lines, patches);
    var j :| 0 <= j < |patches| && patches[j] == p;
    assert j > 0 ==> Descending(patches[0], patches[j]);
    assert !InRange(lines, patches[0]) && k == 0;
    assert patches[..0] == [];
    assert Fitted(lines, []) == {};
  }

  /** The rewritten file, whatever order ties were sorted into: exactly the fitted lines
      change, each to the new line of a patch that fits it. */
  ghost predicate Rewritten(src: string, patches: seq<Patch>, out: string) {
    var lines := Split(src, '\n');
    exists result: seq<string> ::
      && |result| == |lines| && out == Join(result, '\n')
      && forall i :: 0 <= i < |lines| ==> LineRewritten(lines, patches, i, result[i])
  }

  ghost predicate LineRewritten(lines: seq<string>, patches: seq<Patch>, i: nat, text: string)
    requires i < |lines|
  {
    if SomeFits(lines, patches, i)
    then exists p :: p in patches && Fits(lines, p, i) && text == p.newLine
    else text == lines[i]
  }

  /** Replaying any ordering of the same patches rewrites the file in this sense, and
      counts the rewritten lines. */
  lemma ReplayRewrites(src: string, patches: seq<Patch>, sorted: seq<Patch>)
    requires forall p :: p in sorted <==> p in patches
    requires forall p :: p in patches ==> InRange(Split(src, '\n'), p)
    ensures
      var lines, outcome := Split(src, '\n'), Replay(src, sorted);
      && outcome.ok
      && outcome.applied == |Fitted(lines, patches)|
      && Rewritten(src, patches, outcome.written.GetOr(src))
  {
    var lines := Split(src, '\n');
    assert sorted[..|sorted|] == sorted;
    forall j | 0 <= j < |sorted| ensures InRange(lines, sorted[j]) {
      assert sorted[j] in patches;
    }
    OutsideAt(lines, sorted, |sorted|);
    var fitted := Fitted(lines, patches);
    assert fitted == Fitted(lines, sorted);
    var result := Patched(lines, sorted);
    forall i | 0 <= i < |lines| ensures LineRewritten(lines, patches, i, result[i]) {
      assert FirstFit(lines, sorted, i).None? <==> forall p :: p in patches ==> !Fits(lines, p, i);
    }
    if fitted == {} {
      forall i | 0 <= i < |lines| ensures result[i] == lines[i] {
        assert i !in fitted;
      }
      assert result == lines;
    }
    JoinSplit(src, '\n');
  }

  // ---------------------------------------------------------------- all files

  function PatchOf(f: Finding): Option<Patch> {
    if f.fix.Some? then f.fix.value.patch else None
  }

  /** The patches of the findings for one file, in order. */
  function PatchesFor(findings: seq<Finding>, path: string): (ps: seq<Patch>)
    ensures forall p :: p in ps <==> p.path == path && exists f :: f in findings && PatchOf(f) == Some(p)
  {
    if findings == [] then []
    else
      var n := |findings| - 1;
      assert findings == findings[..n] + [findings[n]];
      var ps, patch := PatchesFor(findings[..n], path), PatchOf(findings[n]);
      if patch.Some? && patch.value.path == path then ps + [patch.value] else ps
  }

  /** What a run does to the file at `path`: untouched unless it is readable and all its
      patches are inside. */
  ghost predicate FileRewritten(files: map<string, string>, findings: seq<Finding>, path: string, now: string)
    requires path in files
  {
    var patches := PatchesFor(findings, path);
    if forall p :: p in patches ==> InRange(Split(files[path], '\n'), p)
    then Rewritten(files[path], patches, now) else now == files[path]
  }

  /** The file system is the map of readable files. The exit code is 0 exactly when every
      finding had a patch and every patched file was readable with all patches inside. */
  method ApplyPatches(files: map<string, string>, findings: seq<Finding>)
    returns (files': map<string, string>, exitCode: int)
    ensures files'.Keys == files.Keys
    ensures forall path :: path in files ==> FileRewritten(files, findings, path, files'[path])
    ensures exitCode == 0 || exitCode == 1
    ensures exitCode == 0 <==> forall f :: f in findings ==>
      && PatchOf(f).Some? && PatchOf(f).value.path in files
      && InRange(Split(files[PatchOf(f).value.path], '\n'), PatchOf(f).value)
  {
    var byFile, noPatch := GroupByFile(findings);
    files' := files;
    var failed := 0;
    var todo := byFile.Keys;
    NotGrouped(files, findings, byFile);
    while todo != {}
      invariant todo <= byFile.Keys && files'.Keys == files.Keys && failed >= 0
      invariant forall path :: path in files && path in todo ==> files'[path] == files[path]
      invariant forall path :: path in files && path !in todo ==> FileRewritten(files, findings, path, files'[path])
      invariant failed == 0 <==> forall path :: path in byFile && path !in todo ==> AllInside(files, findings, path)
    {
      var path :| path in todo;
      todo := todo - {path};
      var ok := false;
      if path in files {
        var now;
        ok, now := PatchOneFile(files, findings, path, byFile[path]);
        files' := files'[path := now];
      }
      if !ok {
        failed := failed + 1;
      }
    }
    exitCode := if failed > 0 || noPatch > 0 then 1 else 0;
    AllInsideIff(files, findings, byFile);
  }

  /** The grouping loop. */
  method GroupByFile(findings: seq<Finding>) returns (byFile: map<string, seq<Patch>>, noPatch: nat)
    ensures noPatch == 0 <==> forall f :: f in findings ==> PatchOf(f).Some?
    ensures forall path :: Bucket(byFile, path) == PatchesFor(findings, path)
    ensures forall path :: path in byFile ==> byFile[path] != []
  {
    byFile := map[];
    noPatch := 0;
    for i := 0 to |findings|
      invariant noPatch == 0 <==> forall k :: 0 <= k < i ==> PatchOf(findings[k]).Some?
      invariant forall path :: Bucket(byFile, path) == PatchesFor(findings[..i], path)
      invariant forall path :: path in byFile ==> byFile[path] != []
    {
      assert findings[..i + 1][..i] == findings[..i];
      var patch := PatchOf(findings[i]);
      if patch.None? {
        noPatch := noPatch + 1;
        continue;
      }
      byFile := byFile[patch.value.path := Bucket(byFile, patch.value.path) + [patch.value]];
    }
    assert findings[..|findings|] == findings;
  }

  /** A file without patches is rewritten to itself. */
  lemma NotGrouped(files: map<string, string>, findings: seq<Finding>, byFile: map<string, seq<Patch>>)
    requires forall path :: Bucket(byFile, path) == PatchesFor(findings, path)
    ensures forall path :: path in files && path !in byFile ==> FileRewritten(files, findings, path, files[path])
  {
    forall path | path in files && path !in byFile ensures FileRewritten(files, findings, path, files[path]) {
      var src := files[path];
      assert PatchesFor(findings, path) == Bucket(byFile, path) == [];
      JoinSplit(src, '\n');
      assert forall i :: 0 <= i < |Split(src, '\n')| ==> LineRewritten(Split(src, '\n'), [], i, Split(src, '\n')[i]);
    }
  }

  ghost predicate AllInside(files: map<string, string>, findings: seq<Finding>, path: string) {
    path in files && forall p :: p in PatchesFor(findings, path) ==> InRange(Split(files[path], '\n'), p)
  }

  lemma AllInsideIff(files: map<string, string>, findings: seq<Finding>, byFile: map<string, seq<Patch>>)
    requires forall path :: Bucket(byFile, path) == PatchesFor(findings, path)
    requires forall path :: path in byFile ==> byFile[path] != []
    ensures (forall path :: path in byFile ==> AllInside(files, findings, path))
       <==> forall f :: f in findings && PatchOf(f).Some? ==>
              && PatchOf(f).value.path in files
              && InRange(Split(files[PatchOf(f).value.path], '\n'), PatchOf(f).value)
  {
    forall f | f in findings && PatchOf(f).Some?
      ensures PatchOf(f).value.path in byFile && PatchOf(f).value in PatchesFor(findings, PatchOf(f).value.path)
    {
      assert PatchOf(f).value in Bucket(byFile, PatchOf(f).value.path);
    }
    forall path | path in byFile
      ensures byFile[path][0] in PatchesFor(findings, path)
    {
      assert byFile[path][0] in Bucket(byFile, path);
    }
  }

  method PatchOneFile(files: map<string, string>, ghost findings: seq<Finding>, path: string, patches: seq<Patch>)
    returns (ok: bool, now: string)
    requires path in files && patches == PatchesFor(findings, path)
    ensures ok <==> AllInside(files, findings, path)
    ensures FileRewritten(files, findings, path, now)
  {
    var sorted := Sort(patches, Descending);
    SameElements(patches, sorted);
    var applied, written;
    ok, applied, written := ApplyFilePatches(files[path], sorted);
    if forall p :: p in patches ==> InRange(Split(files[path], '\n'), p) {
      ReplayRewrites(files[path], patches, sorted);
    } else {
      ghost var p :| p in patches && !InRange(Split(files[path], '\n'), p);
      OutsideMeansNoWrite(files[path], sorted, p);
    }
    now := written.GetOr(files[path]);
  }
}
