/** The structured patch: wrap one argument of the sink call in the guard. */
module Autofix {
  import opened Text
  import opened Syntax
  import opened CallGraph
  import opened Policies

  /** Replaces line `line` (1-based) of the file at `path`. */
  datatype Patch = Patch(path: string, line: int, oldLine: string, newLine: string)

  // ---------------------------------------------------------------- lines

  /** Line `line` of `src`, counted from 1. */
  function LineOf(src: string, line: int): Option<string> {
    var lines := Split(src, '\n');
    if 1 <= line <= |lines| then Some(lines[line - 1]) else None
  }

  /** The cursor loop: finds line `line` in one pass over the bytes. */
  method LineAt(src: string, line: int) returns (text: Option<string>)
    ensures text == LineOf(src, line)
    ensures text.Some? <==> 1 <= line <= Count(src, '\n') + 1
  {
    SplitCount(src, '\n');
    if line <= 0 {
      return None;
    }
    var cur, start := 1, 0;
    FirstOfAll(src);
    for i := 0 to |src|
      invariant 0 <= start <= i && 1 <= cur <= line
      invariant forall k :: start <= k < i ==> src[k] != '\n'
      invariant LinesFrom(src, cur, start)
    {
      if cur == line {
        var end := i;
        while end < |src| && src[end] != '\n'
          invariant i <= end <= |src| && forall k :: start <= k < end ==> src[k] != '\n'
        {
          end := end + 1;
        }
        LineFound(src, cur, start, end);
        return Some(src[start..end]);
      }
      if src[i] == '\n' {
        NextLine(src, cur, start, i);
        cur := cur + 1;
        start := i + 1;
      }
    }
    LastLine(src, cur, start);
    if cur == line {
      LineFound(src, cur, start, |src|);
      assert src[start..|src|] == src[start..];
      return Some(src[start..]);
    }
    return None;
  }

  /** Line `cur` starts at byte `start`. */
  ghost predicate LinesFrom(src: string, cur: nat, start: nat) {
    && start <= |src| && 1 <= cur <= |Split(src, '\n')|
    && Split(src, '\n')[cur - 1..] == Split(src[start..], '\n')
  }

  lemma LineFound(src: string, cur: nat, start: nat, end: nat)
    requires LinesFrom(src, cur, start)
    requires start <= end <= |src| && forall k :: start <= k < end ==> src[k] != '\n'
    requires end == |src| || src[end] == '\n'
    ensures LineOf(src, cur) == Some(src[start..end]) && cur <= Count(src, '\n') + 1
  {
    SplitCount(src, '\n');
    FirstLine(src, start, end);
    assert Split(src, '\n')[cur - 1..][0] == Split(src, '\n')[cur - 1];
  }

  /** The line that starts at `start` ends at the first newline or at the end of file. */
  lemma FirstLine(src: string, start: nat, end: nat)
    requires start <= end <= |src| && forall k :: start <= k < end ==> src[k] != '\n'
    requires end == |src| || src[end] == '\n'
    ensures Split(src[start..], '\n')
         == [src[start..end]] + if end == |src| then [] else Split(src[end + 1..], '\n')
  {
    SplitPlain(src[start..end], '\n');
    if end == |src| {
      assert src[start..] == src[start..end];
    } else {
      SplitAt(src[start..end], '\n', src[end + 1..]);
      assert src[start..] == src[start..end] + ['\n'] + src[end + 1..];
    }
  }

  lemma NextLine(src: string, cur: nat, start: nat, end: nat)
    requires LinesFrom(src, cur, start) && start <= end < |src| && src[end] == '\n'
    requires forall k :: start <= k < end ==> src[k] != '\n'
    ensures LinesFrom(src, cur + 1, end + 1)
  {
    FirstLine(src, start, end);
    assert Split(src, '\n')[cur..] == Split(src, '\n')[cur - 1..][1..];
  }

  /** A line without a newline behind it is the last. */
  lemma LastLine(src: string, cur: nat, start: nat)
    requires LinesFrom(src, cur, start) && forall k :: start <= k < |src| ==> src[k] != '\n'
    ensures cur == Count(src, '\n') + 1
  {
    SplitCount(src, '\n');
    FirstLine(src, start, |src|);
    assert |Split(src, '\n')[cur - 1..]| == 1;
  }

  lemma FirstOfAll(src: string)
    ensures LinesFrom(src, 1, 0)
  {
    assert src[0..] == src && Split(src, '\n')[0..] == Split(src, '\n');
  }

  // ---------------------------------------------------------------- the patch

  predicate IsArgumentList(n: Node) {
    n.kind == ArgumentList || n.kind == Arguments
  }

  /** `args` is the first child that is an argument list, or there is none. */
  ghost predicate IsFirstList(children: seq<Child>, args: Option<Node>) {
    if args.None? then forall c :: c in children ==> !IsArgumentList(c.node)
    else
      exists i :: 0 <= i < |children| && children[i].node == args.value && IsArgumentList(args.value)
                  && forall k :: 0 <= k < i ==> !IsArgumentList(children[k].node)
  }

  /** The argument-list child of a call: the `arguments` field when it is one, else the first
      child of that kind. */
  function FindArgumentList(call: Node): (args: Option<Node>)
    ensures args.Some? ==> IsArgumentList(args.value) && exists c :: c in call.children && c.node == args.value
    ensures args.Some? && args != call.ByField(ArgumentsField) ==> IsFirstList(call.children, args)
    ensures call.ByField(ArgumentsField).Some? && IsArgumentList(call.ByField(ArgumentsField).value) ==>
      args == call.ByField(ArgumentsField)
    ensures args.None? <==> forall c :: c in call.children ==> !IsArgumentList(c.node)
  {
    var field := call.ByField(ArgumentsField);
    assert field.Some? ==> call.children[FieldIndex(call.children, ArgumentsField)] in call.children;
    if field.Some? && IsArgumentList(field.value) then field else FirstArgumentList(call.children)
  }

  function FirstArgumentList(children: seq<Child>): (args: Option<Node>)
    ensures IsFirstList(children, args)
  {
    if children == [] then None
    else if IsArgumentList(children[0].node) then Some(children[0].node)
    else FirstArgumentList(children[1..])
  }

  /** The positional arguments: keyword arguments dropped, order kept. */
  function Positional(children: seq<Child>): seq<Node> {
    if children == [] then []
    else
      var n := |children| - 1;
      Positional(children[..n]) + if children[n].node.kind == KeywordArgument then [] else [children[n].node]
  }

  function PositionalAt(args: Node, idx: int): Option<Node> {
    var positional := Positional(args.children);
    if 0 <= idx < |positional| then Some(positional[idx]) else None
  }

  /** How many of the first `i` children are no keyword arguments. */
  ghost function PositionalsBefore(children: seq<Child>, i: nat): nat
    requires i <= |children|
  {
    |set j: nat | j < i && children[j].node.kind != KeywordArgument|
  }

  /** Child `i` is no keyword argument, and exactly `idx` such children stand left of it. */
  ghost predicate IsPositional(children: seq<Child>, i: nat, idx: int) {
    i < |children| && children[i].node.kind != KeywordArgument && PositionalsBefore(children, i) == idx
  }

  lemma OneMoreBefore(children: seq<Child>, i: nat)
    requires i < |children|
    ensures PositionalsBefore(children, i + 1)
         == PositionalsBefore(children, i) + if children[i].node.kind == KeywordArgument then 0 else 1
  {
    var before := set j: nat | j < i && children[j].node.kind != KeywordArgument;
    var after := set j: nat | j < i + 1 && children[j].node.kind != KeywordArgument;
    assert after == if children[i].node.kind == KeywordArgument then before else before + {i};
  }

  lemma SameBefore(children: seq<Child>, n: nat, i: nat)
    requires i <= n <= |children|
    ensures PositionalsBefore(children[..n], i) == PositionalsBefore(children, i)
  {
    assert (set j: nat | j < i && children[..n][j].node.kind != KeywordArgument)
        == (set j: nat | j < i && children[j].node.kind != KeywordArgument);
  }

  /** Each positional argument has its place in the list. */
  lemma {:induction false} PositionalPlace(children: seq<Child>, i: nat)
    requires i < |children| && children[i].node.kind != KeywordArgument
    ensures PositionalsBefore(children, i) < |Positional(children)|
    ensures Positional(children)[PositionalsBefore(children, i)] == children[i].node
    decreases |children|
  {
    var n := |children| - 1;
    PositionalCount(children[..n]);
    SameBefore(children, n, n);
    if i < n {
      PositionalPlace(children[..n], i);
      SameBefore(children, n, i);
    }
  }

  lemma {:induction false} PositionalCount(children: seq<Child>)
    ensures |Positional(children)| == PositionalsBefore(children, |children|)
  {
    if children != [] {
      var n := |children| - 1;
      PositionalCount(children[..n]);
      SameBefore(children, n, n);
      OneMoreBefore(children, n);
    }
  }

  /** Each place in the list is taken by one child. */
  lemma {:induction false} ChildAtPlace(children: seq<Child>, idx: nat) returns (i: nat)
    requires idx < |Positional(children)|
    ensures IsPositional(children, i, idx) && children[i].node == Positional(children)[idx]
  {
    var n := |children| - 1;
    if idx < |Positional(children[..n])| {
      i := ChildAtPlace(children[..n], idx);
      SameBefore(children, n, i);
    } else {
      i := n;
      PositionalCount(children[..n]);
      SameBefore(children, n, n);
    }
  }

  /** Argument `idx` is the child that is no keyword argument and has exactly `idx` such
      children left of it; there is none when `idx` is negative or too large. */
  lemma PositionalAtIff(args: Node, idx: int, a: Node)
    ensures PositionalAt(args, idx) == Some(a)
       <==> exists i: nat :: IsPositional(args.children, i, idx) && args.children[i].node == a
    ensures PositionalAt(args, idx).None? <==> idx < 0 || PositionalsBefore(args.children, |args.children|) <= idx
  {
    PositionalCount(args.children);
    if PositionalAt(args, idx) == Some(a) {
      var i := ChildAtPlace(args.children, idx);
    }
    if i: nat :| IsPositional(args.children, i, idx) && args.children[i].node == a {
      PositionalPlace(args.children, i);
    }
  }

  /** The counting loop. */
  method NthPositionalArg(args: Node, idx: int) returns (arg: Option<Node>)
    ensures arg == PositionalAt(args, idx)
    ensures arg.Some? ==> exists i: nat :: IsPositional(args.children, i, idx) && args.children[i].node == arg.value
    ensures arg.None? <==> idx < 0 || PositionalsBefore(args.children, |args.children|) <= idx
  {
    var pos := 0;
    for i := 0 to |args.children|
      invariant pos == PositionalsBefore(args.children, i) && (idx < 0 || pos <= idx)
    {
      OneMoreBefore(args.children, i);
      var c := args.children[i].node;
      if c.kind == KeywordArgument {
        continue;
      }
      if pos == idx {
        assert IsPositional(args.children, i, idx);
        PositionalAtIff(args, idx, c);
        return Some(c);
      }
      pos := pos + 1;
    }
    PositionalAtIff(args, idx, args);
    return None;
  }

  /** `nil` when the sink has no such argument or the argument spans lines. */
  function BuildWrapPatch(sink: CallSite, argIdx: int, guardCall: string): Option<Patch> {
    if sink.node.None? then None
    else
      var args := FindArgumentList(sink.node.value);
      if args.None? then None
      else
        var arg := PositionalAt(args.value, argIdx);
        if arg.None? then None else WrapNode(sink.file, arg.value, guardCall)
  }

  function WrapNode(file: File, arg: Node, guardCall: string): Option<Patch> {
    var src, start, end := file.source, arg.startByte, arg.endByte;
    if start >= |src| || end > |src| || start >= end then None
    else if arg.start.row != arg.end.row then None
    else
      var argText := src[start..end];
      var oldLine := LineOf(src, arg.start.row + 1);
      var col := arg.start.column;
      if oldLine.None? || col + |argText| > |oldLine.value| then None
      else
        Some(Patch(file.path, arg.start.row + 1, oldLine.value,
                   Edited(oldLine.value, col, |argText|, Wrapped(guardCall, argText))))
  }

  /** `line` with the `len` bytes at `col` replaced. */
  function Edited(line: string, col: nat, len: nat, text: string): string
    requires col + len <= |line|
  {
    line[..col] + text + line[col + len..]
  }

  function Wrapped(guardCall: string, argText: string): string {
    guardCall + ("(" + argText + ")")
  }

  /** The first `calls` predicate of the guard, or "". */
  function FirstGuardCall(preds: seq<Predicate>): (call: string)
    ensures (exists i :: 0 <= i < |preds| && preds[i] == Calls(call) && forall k :: 0 <= k < i ==> !preds[k].Calls?)
         || (call == "" && forall p :: p in preds ==> !p.Calls?)
  {
    if preds == [] then ""
    else if preds[0].Calls? then preds[0].pattern
    else FirstGuardCall(preds[1..])
  }

  /** The rendered fix, without the text of the suggestion. */
  datatype FindingFix = FindingFix(level: FixLevel, patch: Option<Patch>)

  function RenderFix(p: Policy, sinkCall: Option<CallSite>): Option<FindingFix> {
    if p.fix.None? then None
    else
      var fix := p.fix.value;
      var guardCall := FirstGuardCall(p.guard.anyOf);
      Some(FindingFix(
        if fix.level == Unset then Idiomatic else fix.level,
        if fix.wrapArgument.Some? && sinkCall.Some? && guardCall != ""
        then BuildWrapPatch(sinkCall.value, fix.wrapArgument.value, guardCall) else None))
  }
}
