/** The line-oriented patch refines a byte splice: building the patch from byte offsets
    and replaying it on lines edits exactly the bytes of the argument. */
module LinePatch {
  import opened Text
  import opened Syntax
  import opened CallGraph
  import opened Autofix
  import opened Policies
  import opened Matching
  import opened Solver
  import opened Analysis
  import opened PatchApply

  // ---------------------------------------------------------------- positions

  /** Bytes since the last newline before offset `k`. */
  function ColumnAt(src: string, k: nat): (col: nat)
    requires k <= |src|
    ensures col <= k && '\n' !in src[k - col..k]
    ensures col < k ==> src[k - col - 1] == '\n'
  {
    if k == 0 || src[k - 1] == '\n' then 0 else 1 + ColumnAt(src, k - 1)
  }

  function PointAt(src: string, k: nat): Point
    requires k <= |src|
  {
    Point(Count(src[..k], '\n'), ColumnAt(src, k))
  }

  /** What the parser promises of a node: its rows and columns agree with its bytes. */
  ghost predicate Located(src: string, n: Node) {
    && n.startByte <= n.endByte <= |src|
    && n.start == PointAt(src, n.startByte) && n.end == PointAt(src, n.endByte)
  }

  ghost predicate AllLocated(src: string, n: Node) {
    Located(src, n) && forall c :: c in n.children ==> AllLocated(src, c.node)
  }

  // ---------------------------------------------------------------- one line in its file

  /** `line` is a whole line between what comes before and after. */
  ghost predicate WholeLine(before: string, line: string, after: string) {
    && '\n' !in line
    && (before == "" || before[|before| - 1] == '\n')
    && (after == "" || after[0] == '\n')
  }

  function LinesAbove(before: string): seq<string> {
    if before == "" then [] else Split(before[..|before| - 1], '\n')
  }

  function LinesBelow(after: string): seq<string> {
    if after == "" then [] else Split(after[1..], '\n')
  }

  lemma SplitAbove(before: string, rest: string)
    requires before == "" || before[|before| - 1] == '\n'
    ensures |LinesAbove(before)| == Count(before, '\n')
    ensures Split(before + rest, '\n') == LinesAbove(before) + Split(rest, '\n')
  {
    if before == "" {
      assert before + rest == rest;
    } else {
      var body := before[..|before| - 1];
      assert before == body + ['\n'];
      SplitAt(body, '\n', rest);
      SplitCount(body, '\n');
      CountAppend(body, ['\n'], '\n');
    }
  }

  lemma SplitBelow(line: string, after: string)
    requires '\n' !in line && (after == "" || after[0] == '\n')
    ensures Split(line + after, '\n') == [line] + LinesBelow(after)
  {
    SplitPlain(line, '\n');
    if after == "" {
      assert line + after == line;
    } else {
      assert line + after == line + ['\n'] + after[1..];
      SplitAt(line, '\n', after[1..]);
    }
  }

  lemma JoinAbove(before: string, parts: seq<string>)
    requires parts != [] && (before == "" || before[|before| - 1] == '\n')
    ensures Join(LinesAbove(before) + parts, '\n') == before + Join(parts, '\n')
  {
    if before == "" {
      assert LinesAbove(before) + parts == parts;
    } else {
      var body := before[..|before| - 1];
      assert before == body + ['\n'];
      JoinAppend(LinesAbove(before), parts, '\n');
      JoinSplit(body, '\n');
    }
  }

  lemma JoinBelow(text: string, after: string)
    requires after == "" || after[0] == '\n'
    ensures Join([text] + LinesBelow(after), '\n') == text + after
  {
    if after != "" {
      assert after == ['\n'] + after[1..];
      JoinAppend([text], LinesBelow(after), '\n');
      JoinSplit(after[1..], '\n');
    }
  }

  /** A whole line is one of the parts, and replacing it there replaces it in the file. */
  lemma ReplaceLine(before: string, line: string, after: string, text: string)
    requires WholeLine(before, line, after)
    ensures
      var lines, row := Split(before + (line + after), '\n'), Count(before, '\n');
      && row < |lines| && lines[row] == line
      && Join(lines[row := text], '\n') == before + (text + after)
  {
    SplitAbove(before, line + after);
    SplitBelow(line, after);
    var above, below := LinesAbove(before), LinesBelow(after);
    UpdateMiddle(above, line, below, text);
    JoinAbove(before, [text] + below);
    JoinBelow(text, after);
  }

  lemma UpdateMiddle(above: seq<string>, x: string, below: seq<string>, y: string)
    ensures (above + ([x] + below))[|above|] == x
    ensures (above + ([x] + below))[|above| := y] == above + ([y] + below)
  {
  }

  function LineEnd(src: string, k: nat): (end: nat)
    requires k <= |src|
    ensures k <= end <= |src| && '\n' !in src[k..end]
    ensures end < |src| ==> src[end] == '\n'
    decreases |src| - k
  {
    if k == |src| || src[k] == '\n' then k else LineEnd(src, k + 1)
  }

  /** Offsets on the same row have no newline between them. */
  lemma SameRow(src: string, s: nat, e: nat)
    requires s <= e <= |src|
    ensures PointAt(src, s).row == PointAt(src, e).row <==> '\n' !in src[s..e]
  {
    assert src[..e] == src[..s] + src[s..e];
    CountAppend(src[..s], src[s..e], '\n');
    CountZero(src[s..e], '\n');
  }

  /** The line around a single-line range of bytes. */
  lemma LineAround(src: string, s: nat, e: nat)
    requires s <= e <= |src| && '\n' !in src[s..e]
    ensures
      var lo, hi := s - ColumnAt(src, s), LineEnd(src, e);
      && WholeLine(src[..lo], src[lo..hi], src[hi..])
      && src == src[..lo] + (src[lo..hi] + src[hi..])
      && Count(src[..lo], '\n') == PointAt(src, s).row
  {
    var lo, hi := s - ColumnAt(src, s), LineEnd(src, e);
    NoNewlineBetween(src, lo, s, e, hi);
    RowOfLine(src, lo, s);
    Around(src, lo, hi);
  }

  lemma NoNewlineBetween(src: string, lo: nat, s: nat, e: nat, hi: nat)
    requires lo <= s <= e <= hi <= |src|
    requires '\n' !in src[lo..s] && '\n' !in src[s..e] && '\n' !in src[e..hi]
    ensures '\n' !in src[lo..hi]
  {
    assert src[lo..hi] == src[lo..s] + (src[s..e] + src[e..hi]);
  }

  lemma RowOfLine(src: string, lo: nat, s: nat)
    requires lo <= s <= |src| && '\n' !in src[lo..s]
    ensures Count(src[..lo], '\n') == Count(src[..s], '\n')
  {
    assert src[..s] == src[..lo] + src[lo..s];
    CountAppend(src[..lo], src[lo..s], '\n');
    CountZero(src[lo..s], '\n');
  }

  lemma LineIs(src: string, s: nat, e: nat)
    requires s <= e <= |src| && '\n' !in src[s..e]
    ensures LineOf(src, PointAt(src, s).row + 1) == Some(src[s - ColumnAt(src, s)..LineEnd(src, e)])
  {
    var lo, hi := s - ColumnAt(src, s), LineEnd(src, e);
    LineAround(src, s, e);
    ReplaceLine(src[..lo], src[lo..hi], src[hi..], "");
  }

  // ---------------------------------------------------------------- the patch is a splice

  function Spliced(src: string, s: nat, e: nat, text: string): string
    requires s <= e <= |src|
  {
    src[..s] + text + src[e..]
  }

  /** A located, non-empty, single-line argument always gets a patch: the checks on the
      line number and the column never fail. */
  lemma PatchExistsIff(file: File, arg: Node, guardCall: string)
    requires Located(file.source, arg)
    ensures WrapNode(file, arg, guardCall).Some?
       <==> arg.startByte < arg.endByte && '\n' !in file.source[arg.startByte..arg.endByte]
  {
    var src, s, e := file.source, arg.startByte, arg.endByte;
    SameRow(src, s, e);
    if s < e && '\n' !in src[s..e] {
      PatchShape(file, arg, guardCall);
    }
  }

  lemma PatchShape(file: File, arg: Node, guardCall: string)
    requires Located(file.source, arg) && arg.startByte < arg.endByte
    requires '\n' !in file.source[arg.startByte..arg.endByte]
    ensures
      var src, s, e := file.source, arg.startByte, arg.endByte;
      WrapNode(file, arg, guardCall)
      == Some(PatchFor(file, PointAt(src, s).row, s - ColumnAt(src, s), s, e, LineEnd(src, e), guardCall))
  {
    var src, s, e := file.source, arg.startByte, arg.endByte;
    SameRow(src, s, e);
    LineIs(src, s, e);
    PatchOnLine(file, arg, guardCall, s - ColumnAt(src, s), LineEnd(src, e));
  }

  /** The patch in terms of byte offsets: the line is lo..hi, the argument s..e. */
  function PatchFor(file: File, row: nat, lo: nat, s: nat, e: nat, hi: nat, guardCall: string): Patch
    requires lo <= s <= e <= hi <= |file.source|
  {
    var src := file.source;
    Patch(file.path, row + 1, src[lo..hi], src[lo..s] + Wrapped(guardCall, src[s..e]) + src[e..hi])
  }

  lemma PatchOnLine(file: File, arg: Node, guardCall: string, lo: nat, hi: nat)
    requires lo <= arg.startByte < arg.endByte <= hi <= |file.source|
    requires arg.start.row == arg.end.row && arg.start.column == arg.startByte - lo
    requires LineOf(file.source, arg.start.row + 1) == Some(file.source[lo..hi])
    ensures WrapNode(file, arg, guardCall)
         == Some(PatchFor(file, arg.start.row, lo, arg.startByte, arg.endByte, hi, guardCall))
  {
    var src, s, e := file.source, arg.startByte, arg.endByte;
    LineCut(src, lo, s, e, hi, Wrapped(guardCall, src[s..e]));
  }

  lemma LineCut(src: string, lo: nat, s: nat, e: nat, hi: nat, text: string)
    requires lo <= s <= e <= hi <= |src|
    ensures |src[lo..hi]| == hi - lo
    ensures Edited(src[lo..hi], s - lo, e - s, text) == src[lo..s] + text + src[e..hi]
  {
    assert src[lo..hi][..s - lo] == src[lo..s] && src[lo..hi][e - lo..] == src[e..hi];
  }

  /** Editing inside the line or inside the file is the same splice. */
  lemma SpliceInLine(src: string, lo: nat, s: nat, e: nat, hi: nat, text: string)
    requires lo <= s <= e <= hi <= |src|
    ensures Spliced(src, s, e, text) == src[..lo] + ((src[lo..s] + text + src[e..hi]) + src[hi..])
  {
    assert src[..s] == src[..lo] + src[lo..s] && src[e..] == src[e..hi] + src[hi..];
  }

  /** On the unchanged file the patch applies once and the file becomes the splice. */
  lemma PatchIsSplice(file: File, arg: Node, guardCall: string)
    requires Located(file.source, arg) && WrapNode(file, arg, guardCall).Some?
    ensures
      var src, s, e := file.source, arg.startByte, arg.endByte;
      Replay(src, [WrapNode(file, arg, guardCall).value])
      == Outcome(true, 1, Some(Spliced(src, s, e, Wrapped(guardCall, src[s..e]))))
  {
    var src, s, e := file.source, arg.startByte, arg.endByte;
    PatchExistsIff(file, arg, guardCall);
    PatchShape(file, arg, guardCall);
    var lo, hi := s - ColumnAt(src, s), LineEnd(src, e);
    var patch := PatchFor(file, PointAt(src, s).row, lo, s, e, hi, guardCall);
    LineAround(src, s, e);
    ReplaceLine(src[..lo], src[lo..hi], src[hi..], patch.newLine);
    OnePatch(src, patch);
    SpliceInLine(src, lo, s, e, hi, Wrapped(guardCall, src[s..e]));
  }

  /** Replaying a single patch inside the file. */
  lemma OnePatch(src: string, p: Patch)
    requires InRange(Split(src, '\n'), p)
    ensures
      var lines := Split(src, '\n');
      Replay(src, [p]) == if lines[p.line - 1] == p.oldLine
                          then Outcome(true, 1, Some(Join(lines[p.line - 1 := p.newLine], '\n')))
                          else Outcome(true, 0, None)
  {
    var lines := Split(src, '\n');
    assert FirstOutside(lines, [p]) == 1 by {
      OutsideAt(lines, [p], 1);
    }
    assert [p][..1] == [p];
    forall i: nat | i < |lines| ensures FirstFit(lines, [p], i) == if Fits(lines, p, i) then Some(p) else None {
      assert [p][1..] == [];
    }
    forall i | 0 <= i < |lines| ensures SomeFits(lines, [p], i) <==> Fits(lines, p, i) {
      assert p in [p];
    }
    if lines[p.line - 1] == p.oldLine {
      assert Fitted(lines, [p]) == {p.line - 1};
      assert Patched(lines, [p]) == lines[p.line - 1 := p.newLine];
    } else {
      assert Fitted(lines, [p]) == {};
    }
  }

  // ---------------------------------------------------------------- from the call site

  /** `arg` is positional argument `idx` of the call. */
  ghost predicate IsArgument(call: Node, idx: int, arg: Node) {
    && FindArgumentList(call).Some?
    && var args := FindArgumentList(call).value.children;
       exists i: nat :: IsPositional(args, i, idx) && args[i].node == arg
  }

  /** `src` with the bytes of `arg` put in brackets behind the name of the guard. */
  function WrappedIn(src: string, arg: Node, guardCall: string): string
    requires arg.startByte <= arg.endByte <= |src|
  {
    src[..arg.startByte] + guardCall + "(" + src[arg.startByte..arg.endByte] + ")" + src[arg.endByte..]
  }

  lemma SplicedIsWrapped(src: string, arg: Node, guardCall: string)
    requires arg.startByte <= arg.endByte <= |src|
    ensures
      var s, e := arg.startByte, arg.endByte;
      Spliced(src, s, e, Wrapped(guardCall, src[s..e])) == WrappedIn(src, arg, guardCall)
  {
  }

  /** End to end from the sink: whenever a patch is built it wraps the requested positional
      argument and leaves the rest of the file as it is. */
  lemma WrapPatchIsSplice(sink: CallSite, argIdx: int, guardCall: string) returns (arg: Node)
    requires sink.node.Some? ==> AllLocated(sink.file.source, sink.node.value)
    requires BuildWrapPatch(sink, argIdx, guardCall).Some?
    ensures sink.node.Some? && IsArgument(sink.node.value, argIdx, arg)
    ensures arg.startByte < arg.endByte <= |sink.file.source|
    ensures
      var src := sink.file.source;
      Replay(src, [BuildWrapPatch(sink, argIdx, guardCall).value])
      == Outcome(true, 1, Some(WrappedIn(src, arg, guardCall)))
  {
    var args := FindArgumentList(sink.node.value).value;
    arg := PositionalAt(args, argIdx).value;
    PositionalAtIff(args, argIdx, arg);
    ArgumentLocated(sink.file.source, sink.node.value, argIdx);
    PatchIsSplice(sink.file, arg, guardCall);
    PatchExistsIff(sink.file, arg, guardCall);
    SplicedIsWrapped(sink.file.source, arg, guardCall);
  }

  /** `arg` is the argument of the call `sink` that the policy asks to wrap. */
  ghost predicate RequestedArgument(p: Policy, sink: CallSite, arg: Node) {
    && p.fix.Some? && p.fix.value.wrapArgument.Some? && sink.node.Some?
    && IsArgument(sink.node.value, p.fix.value.wrapArgument.value, arg)
  }

  /** The argument takes bytes on one line. */
  ghost predicate OneLineArgument(src: string, arg: Node) {
    arg.startByte < arg.endByte <= |src| && '\n' !in src[arg.startByte..arg.endByte]
  }

  /** A finding has a fix exactly when the policy has one, of its level, idiomatic by default;
      the fix has a patch exactly when the sink is a call, the guard has a `calls` predicate
      to wrap with, and the requested argument exists and lies on one line. */
  lemma FixOffered(p: Policy, sink: Option<CallSite>)
    requires sink.Some? && sink.value.node.Some? ==> AllLocated(sink.value.file.source, sink.value.node.value)
    ensures RenderFix(p, sink).Some? <==> p.fix.Some?
    ensures p.fix.Some? ==>
      var level := RenderFix(p, sink).value.level;
      level != Unset && (p.fix.value.level == Unset ==> level == Idiomatic)
      && (p.fix.value.level != Unset ==> level == p.fix.value.level)
    ensures RenderFix(p, sink).Some? && RenderFix(p, sink).value.patch.Some?
       <==> && sink.Some? && FirstGuardCall(p.guard.anyOf) != ""
            && exists arg :: RequestedArgument(p, sink.value, arg) && OneLineArgument(sink.value.file.source, arg)
  {
    if p.fix.Some? && p.fix.value.wrapArgument.Some? && sink.Some? && FirstGuardCall(p.guard.anyOf) != "" {
      PatchOffered(sink.value, p.fix.value.wrapArgument.value, FirstGuardCall(p.guard.anyOf));
    }
  }

  lemma PatchOffered(sink: CallSite, argIdx: int, guardCall: string)
    requires sink.node.Some? ==> AllLocated(sink.file.source, sink.node.value)
    ensures BuildWrapPatch(sink, argIdx, guardCall).Some?
       <==> sink.node.Some?
            && exists arg :: IsArgument(sink.node.value, argIdx, arg) && OneLineArgument(sink.file.source, arg)
  {
    if sink.node.Some? && FindArgumentList(sink.node.value).Some? {
      var arg := PositionalAt(FindArgumentList(sink.node.value).value, argIdx);
      OneArgument(sink.node.value, argIdx);
      if arg.Some? {
        ArgumentLocated(sink.file.source, sink.node.value, argIdx);
        PatchExistsIff(sink.file, arg.value, guardCall);
      }
    }
  }

  lemma OneArgument(call: Node, idx: int)
    requires FindArgumentList(call).Some?
    ensures forall arg :: IsArgument(call, idx, arg) <==> PositionalAt(FindArgumentList(call).value, idx) == Some(arg)
  {
    forall arg ensures IsArgument(call, idx, arg) <==> PositionalAt(FindArgumentList(call).value, idx) == Some(arg) {
      PositionalAtIff(FindArgumentList(call).value, idx, arg);
    }
  }

  /** The call that the finding for `f` reports as its sink. */
  ghost predicate ReportedSink(d: Snapshot, p: Policy, f: FQN, finding: Finding, sink: CallSite) {
    && (exists g :: CanReach(d, f, g) && sink in Bucket(d.calls, g)) && MatchesCall(p.sink, sink)
    && finding.sink == FindingSite(sink.callee, sink.file.path, sink.line)
  }

  /** A patch in a finding edits the file of the reported sink, a matching call in a body
      that the function reaches, and wraps the requested positional argument of that call
      in the first `calls` predicate of the guard. */
  lemma FindingPatchWraps(d: Snapshot, p: Policy, f: FQN, finding: Finding)
    returns (sink: CallSite, arg: Node)
    requires IsFinding(d, p, f, finding) && PatchOf(finding).Some?
    requires forall g, s :: g in d.calls && s in d.calls[g] && s.node.Some? ==> AllLocated(s.file.source, s.node.value)
    requires f in d.funcs
    ensures ReportedSink(d, p, f, finding, sink) && RequestedArgument(p, sink, arg)
    ensures PatchOf(finding).value.path == finding.sink.path
    ensures arg.startByte < arg.endByte <= |sink.file.source|
    ensures
      var src, guardCall := sink.file.source, FirstGuardCall(p.guard.anyOf);
      Replay(src, [PatchOf(finding).value]) == Outcome(true, 1, Some(WrappedIn(src, arg, guardCall)))
    ensures Calls(FirstGuardCall(p.guard.anyOf)) in p.guard.anyOf
  {
    var hit := Verdict(d, p, f).value.sink;
    sink := hit.call.value;
    var argIdx := p.fix.value.wrapArgument.value;
    SinkIsCall(d, p.sink, f, hit);
    arg := WrapPatchIsSplice(sink, argIdx, FirstGuardCall(p.guard.anyOf));
  }

  lemma SinkIsCall(d: Snapshot, m: Matcher, f: FQN, hit: Hit)
    requires f in d.funcs && hit.call.Some?
    requires FirstMatchAny(m, EffectiveCalls(d, f), EffectiveFields(d, f)) == Some(hit)
    ensures hit == AtCall(hit.call.value) && MatchesCall(m, hit.call.value)
    ensures exists g :: CanReach(d, f, g) && hit.call.value in Bucket(d.calls, g)
  {
    Gathered(d, d.calls, f, hit.call.value);
  }

  lemma ArgumentLocated(src: string, call: Node, argIdx: int)
    requires AllLocated(src, call) && FindArgumentList(call).Some?
    requires PositionalAt(FindArgumentList(call).value, argIdx).Some?
    ensures Located(src, PositionalAt(FindArgumentList(call).value, argIdx).value)
  {
    var args := FindArgumentList(call).value;
    var c :| c in call.children && c.node == args;
    assert AllLocated(src, c.node);
    var i := ChildAtPlace(args.children, argIdx);
    assert args.children[i] in args.children && AllLocated(src, args.children[i].node);
  }

  // ---------------------------------------------------------------- running it again

  ghost predicate FitsFile(src: string, p: Patch) {
    var lines := Split(src, '\n');
    InRange(lines, p) && lines[p.line - 1] == p.oldLine
  }

  /** The file after one run, and after `n` runs, of the same patch. */
  ghost function Run(src: string, p: Patch): string {
    Replay(src, [p]).written.GetOr(src)
  }

  ghost function Runs(src: string, p: Patch, n: nat): string {
    if n == 0 then src else Run(Runs(src, p, n - 1), p)
  }

  /** Where a line is replaced, the first line of the new text stands afterwards. */
  lemma {:induction false} SplitJoinAt(parts: seq<string>, row: nat)
    requires row < |parts| && forall i :: 0 <= i < row ==> '\n' !in parts[i]
    ensures
      var lines := Split(Join(parts, '\n'), '\n');
      row < |lines| && lines[row] == Split(parts[row], '\n')[0]
  {
    if |parts| > 1 {
      SplitAt(parts[0], '\n', Join(parts[1..], '\n'));
      if row > 0 {
        SplitPlain(parts[0], '\n');
        SplitJoinAt(parts[1..], row - 1);
      }
    }
  }

  lemma FitsAfter(src: string, p: Patch)
    requires FitsFile(src, p)
    ensures InRange(Split(Run(src, p), '\n'), p)
    ensures FitsFile(Run(src, p), p) <==> Split(p.newLine, '\n')[0] == p.oldLine
  {
    OnePatch(src, p);
    SplitJoinAt(Split(src, '\n')[p.line - 1 := p.newLine], p.line - 1);
  }

  lemma NoFitNoChange(src: string, p: Patch)
    requires InRange(Split(src, '\n'), p) && !FitsFile(src, p)
    ensures Run(src, p) == src
  {
    OnePatch(src, p);
  }

  /** Any patch that fits either fits for ever, when its new text starts with the old
      line, or never again. */
  lemma {:induction false} RunsFit(src: string, p: Patch, n: nat)
    requires FitsFile(src, p) && n >= 1
    ensures InRange(Split(Runs(src, p, n), '\n'), p)
    ensures FitsFile(Runs(src, p, n), p) <==> Split(p.newLine, '\n')[0] == p.oldLine
    ensures !FitsFile(Runs(src, p, n), p) ==> Runs(src, p, n) == Run(src, p)
  {
    if n == 1 {
      assert Runs(src, p, 0) == src;
      FitsAfter(src, p);
    } else {
      RunsFit(src, p, n - 1);
      var before := Runs(src, p, n - 1);
      if FitsFile(before, p) {
        FitsAfter(before, p);
      } else {
        NoFitNoChange(before, p);
      }
    }
  }

  /** The guard name contains a newline and its first line is the rest of the old line. */
  ghost predicate Repeats(src: string, arg: Node, guardCall: string)
    requires arg.startByte <= arg.endByte <= |src|
  {
    '\n' in guardCall && Split(guardCall, '\n')[0] == src[arg.startByte..LineEnd(src, arg.endByte)]
  }

  /** After one or more runs, running the same patch again is skipped, except that a guard
      name that repeats the rest of the old line makes it apply every time. */
  lemma LaterRun(file: File, arg: Node, guardCall: string, n: nat)
    requires Located(file.source, arg) && WrapNode(file, arg, guardCall).Some? && n >= 1
    ensures
      var patch := WrapNode(file, arg, guardCall).value;
      var outcome := Replay(Runs(file.source, patch, n), [patch]);
      if Repeats(file.source, arg, guardCall)
      then outcome.ok && outcome.applied == 1 && outcome.written.Some?
      else outcome == Outcome(true, 0, None)
  {
    var patch := WrapNode(file, arg, guardCall).value;
    PatchFits(file, arg, guardCall);
    RunsFit(file.source, patch, n);
    OutcomeByFit(Runs(file.source, patch, n), patch, Repeats(file.source, arg, guardCall));
  }

  lemma OutcomeByFit(src: string, p: Patch, fits: bool)
    requires InRange(Split(src, '\n'), p) && (FitsFile(src, p) <==> fits)
    ensures
      var outcome := Replay(src, [p]);
      if fits then outcome.ok && outcome.applied == 1 && outcome.written.Some? else outcome == Outcome(true, 0, None)
  {
    OnePatch(src, p);
  }

  /** Without a newline in the guard name every later run is skipped: the file stays the
      splice of the first one. */
  lemma LaterRunSkipped(file: File, arg: Node, guardCall: string, n: nat)
    requires Located(file.source, arg) && WrapNode(file, arg, guardCall).Some? && n >= 1
    requires '\n' !in guardCall
    ensures Runs(file.source, WrapNode(file, arg, guardCall).value, n) == WrappedIn(file.source, arg, guardCall)
  {
    SplicedIsWrapped(file.source, arg, guardCall);
    PatchFits(file, arg, guardCall);
    PatchIsSplice(file, arg, guardCall);
    RunsFit(file.source, WrapNode(file, arg, guardCall).value, n);
  }

  /** A built patch fits its own file, and its new text starts with the old line exactly
      when the guard name repeats the rest of it. */
  lemma PatchFits(file: File, arg: Node, guardCall: string)
    requires Located(file.source, arg) && WrapNode(file, arg, guardCall).Some?
    ensures
      var patch := WrapNode(file, arg, guardCall).value;
      && FitsFile(file.source, patch)
      && (Split(patch.newLine, '\n')[0] == patch.oldLine <==> Repeats(file.source, arg, guardCall))
  {
    var src, s, e := file.source, arg.startByte, arg.endByte;
    PatchExistsIff(file, arg, guardCall);
    PatchShape(file, arg, guardCall);
    var lo, hi := s - ColumnAt(src, s), LineEnd(src, e);
    LineIs(src, s, e);
    NoNewlineBetween(src, lo, s, e, hi);
    NewFirstLine(src, lo, s, e, hi, guardCall);
  }

  /** The new text starts with the old line exactly in the named case. */
  lemma NewFirstLine(src: string, lo: nat, s: nat, e: nat, hi: nat, guardCall: string)
    requires lo <= s < e <= hi <= |src| && '\n' !in src[lo..hi]
    ensures
      var newLine := src[lo..s] + Wrapped(guardCall, src[s..e]) + src[e..hi];
      Split(newLine, '\n')[0] == src[lo..hi]
      <==> '\n' in guardCall && Split(guardCall, '\n')[0] == src[s..hi]
  {
    var newLine := src[lo..s] + Wrapped(guardCall, src[s..e]) + src[e..hi];
    assert src[lo..hi] == src[lo..s] + src[s..hi];
    if '\n' in guardCall {
      var head := Split(guardCall, '\n')[0];
      BrokenLine(src[lo..s], guardCall, "(" + src[s..e] + ")", src[e..hi]);
      SamePrefix(src[lo..s], head, src[s..hi]);
    } else {
      NewLineStaysWhole(src, lo, s, e, hi, guardCall);
      SplitPlain(newLine, '\n');
      assert |newLine| > |src[lo..hi]|;
    }
  }

  lemma BrokenLine(a: string, guardCall: string, arg: string, b: string)
    requires '\n' in guardCall && '\n' !in a
    ensures Split(a + (guardCall + arg) + b, '\n')[0] == a + Split(guardCall, '\n')[0]
  {
    var head := Split(guardCall, '\n')[0];
    FirstPart(guardCall);
    var tail := guardCall[|head| + 1..] + arg + b;
    assert a + (guardCall + arg) + b == (a + head) + ['\n'] + tail;
    HeadOfSplit(a + head, tail);
  }

  lemma SamePrefix(a: string, b: string, c: string)
    ensures a + b == a + c <==> b == c
  {
    assert (a + b)[|a|..] == b && (a + c)[|a|..] == c;
  }

  lemma NewLineStaysWhole(src: string, lo: nat, s: nat, e: nat, hi: nat, guardCall: string)
    requires lo <= s <= e <= hi <= |src| && '\n' !in src[lo..hi] && '\n' !in guardCall
    ensures '\n' !in src[lo..s] + Wrapped(guardCall, src[s..e]) + src[e..hi]
  {
    forall k | lo <= k < hi ensures src[k] != '\n' {
      assert src[lo..hi][k - lo] == src[k];
    }
  }

  lemma HeadOfSplit(a: string, b: string)
    requires '\n' !in a
    ensures Split(a + ['\n'] + b, '\n')[0] == a
  {
    SplitAt(a, '\n', b);
    SplitPlain(a, '\n');
  }

  lemma {:induction false} FirstPart(s: string)
    requires '\n' in s
    ensures var head := Split(s, '\n')[0]; |head| < |s| && s == head + ['\n'] + s[|head| + 1..]
  {
    if s[0] != '\n' {
      assert s == [s[0]] + s[1..];
      FirstPart(s[1..]);
      var rest := Split(s[1..], '\n')[0];
      assert Split(s, '\n')[0] == [s[0]] + rest;
    }
  }

  /** `f(x)` with a guard name whose first line is `x)`: the patch applies on every run. */
  lemma EveryRunCanApply() returns (file: File, arg: Node, guardCall: string)
    ensures Located(file.source, arg) && WrapNode(file, arg, guardCall).Some?
    ensures
      var patch := WrapNode(file, arg, guardCall).value;
      forall n: nat :: Replay(Runs(file.source, patch, n), [patch]).applied == 1
  {
    file, guardCall := File("a.py", "f(x)"), "x)" + ['\n'] + "wrap";
    arg := Node(Identifier, "x", 2, 3, Point(0, 2), Point(0, 3), []);
    ExampleLocated(file.source);
    PatchExistsIff(file, arg, guardCall);
    HeadOfSplit("x)", "wrap");
    ExampleTail(file.source);
    RepeatedApplies(file, arg, guardCall);
  }

  lemma RepeatedApplies(file: File, arg: Node, guardCall: string)
    requires Located(file.source, arg) && WrapNode(file, arg, guardCall).Some? && Repeats(file.source, arg, guardCall)
    ensures
      var patch := WrapNode(file, arg, guardCall).value;
      forall n: nat :: Replay(Runs(file.source, patch, n), [patch]).applied == 1
  {
    PatchIsSplice(file, arg, guardCall);
    var patch := WrapNode(file, arg, guardCall).value;
    forall n: nat ensures Replay(Runs(file.source, patch, n), [patch]).applied == 1 {
      if n > 0 {
        LaterRun(file, arg, guardCall, n);
      }
    }
  }

  lemma ExampleTail(src: string)
    requires src == "f(x)"
    ensures src[2..4] == "x)"
  {
    assert src[2] == 'x' && src[3] == ')';
  }

  lemma ExampleLocated(src: string)
    requires src == "f(x)"
    ensures PointAt(src, 2) == Point(0, 2) && PointAt(src, 3) == Point(0, 3) && LineEnd(src, 3) == 4
    ensures '\n' !in src
  {
    FirstRow(src, 2);
    FirstRow(src, 3);
    assert LineEnd(src, 4) == 4;
  }

  lemma {:induction false} FirstRow(src: string, k: nat)
    requires k <= |src| && '\n' !in src
    ensures PointAt(src, k) == Point(0, k)
  {
    CountZero(src[..k], '\n');
    if k > 0 {
      FirstRow(src, k - 1);
    }
  }
}
