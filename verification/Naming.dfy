/** Call resolution agrees with registration: which calls are resolved to the name under
    which the called function is registered. */
module Naming {
  import opened Text
  import opened Syntax
  import PW = PythonWalk
  import opened GoBuild

  // ---------------------------------------------------------------- dotted text

  /** A raw callee whose first segment is imported resolves below the import. */
  lemma HeadResolved(imports: map<string, FQN>, mod: FQN, head: string, rest: string)
    requires '.' !in head && head in imports
    ensures PW.ResolveCallee(imports, mod, head) == imports[head]
    ensures PW.ResolveCallee(imports, mod, head + "." + rest) == imports[head] + "." + rest
    ensures ResolveGoCallee(imports, mod, head) == imports[head]
    ensures ResolveGoCallee(imports, mod, head + "." + rest) == imports[head] + "." + rest
  {
    SplitPlain(head, '.');
    SplitAt(head, '.', rest);
    assert head + "." + rest == head + ['.'] + rest;
    JoinSplit(rest, '.');
    assert ([head] + Split(rest, '.'))[1..] == Split(rest, '.');
  }

  lemma JoinTwo(a: string, b: string)
    ensures Join([a, b], '.') == a + "." + b
  {
    assert [a, b][1..] == [b];
  }

  lemma JoinThree(a: string, b: string, c: string)
    ensures Join([a, b, c], '.') == a + "." + b + "." + c
  {
    assert [a, b, c][1..] == [b, c];
    JoinTwo(b, c);
    assert a + ['.'] + (b + "." + c) == a + "." + b + "." + c;
  }

  // ---------------------------------------------------------------- Python

  /** `from X import f` and then `f()`: the call resolves to the name under which module X
      registers its function f. */
  lemma FromImportedCall(imports: map<string, FQN>, other: FQN, mod: FQN, n: Node)
    requires n.kind == DottedName && '.' !in n.text
    ensures PW.ResolveCallee(PW.FromBinding(n, other, imports), mod, n.text) == PW.FunctionName(other, [], n.text)
  {
    HeadResolved(PW.FromBinding(n, other, imports), mod, n.text, "");
    assert [] + [n.text] == [n.text];
  }

  /** `from X import C` and then `C.m()`: the call resolves to the method m of class C. */
  lemma FromImportedMethodCall(imports: map<string, FQN>, other: FQN, mod: FQN, n: Node, m: string)
    requires n.kind == DottedName && '.' !in n.text
    ensures PW.ResolveCallee(PW.FromBinding(n, other, imports), mod, n.text + "." + m)
         == PW.FunctionName(other, [n.text], m)
  {
    HeadResolved(PW.FromBinding(n, other, imports), mod, n.text, m);
    assert [n.text] + [m] == [n.text, m];
    JoinTwo(n.text, m);
    assert other + "." + (n.text + "." + m) == other + "." + n.text + "." + m;
  }

  /** A bare name that is not imported resolves to the function of the same file. */
  lemma LocalCall(imports: map<string, FQN>, mod: FQN, f: string)
    requires '.' !in f && f !in imports
    ensures PW.ResolveCallee(imports, mod, f) == PW.FunctionName(mod, [], f)
  {
    SplitPlain(f, '.');
    assert [] + [f] == [f];
  }

  /** `import M` and then `M.f()`: the call resolves to `M.f` exactly when M has a single
      segment. A dotted import binds its head to the whole name, so the tail is doubled. */
  lemma ImportedCall(imports: map<string, FQN>, mod: FQN, n: Node, f: string)
    requires n.kind == DottedName
    ensures PW.ResolveCallee(PW.ImportBinding(n, imports), mod, n.text + "." + f) == n.text + "." + f
       <==> '.' !in n.text
  {
    var full := n.text;
    var head := Split(full, '.')[0];
    var bound := PW.ImportBinding(n, imports);
    if '.' in full {
      var tail := AfterHead(full);
      assert full + "." + f == head + "." + (tail + "." + f);
      HeadResolved(bound, mod, head, tail + "." + f);
      assert |full + "." + (tail + "." + f)| > |full + "." + f|;
    } else {
      SplitPlain(full, '.');
      HeadResolved(bound, mod, full, f);
    }
  }

  lemma {:induction false} AfterHead(s: string) returns (tail: string)
    requires '.' in s
    ensures s == Split(s, '.')[0] + ['.'] + tail
  {
    if s[0] == '.' {
      tail := s[1..];
      assert s == ['.'] + tail;
    } else {
      assert s == [s[0]] + s[1..];
      tail := AfterHead(s[1..]);
      assert Split(s, '.')[0] == [s[0]] + Split(s[1..], '.')[0];
    }
  }

  // ---------------------------------------------------------------- Go

  /** A composed name with its dots. */
  lemma ComposedName(mod: FQN, name: string, recvType: string)
    ensures ComposeName(mod, name, recvType)
         == (if mod == "" then "" else mod + ".") + (if recvType == "" then "" else recvType + ".") + name
  {
    var parts := (if mod != "" then [mod] else []) + (if recvType != "" then [recvType] else []) + [name];
    if mod == "" && recvType == "" {
      assert parts == [name];
    } else if mod == "" {
      assert parts == [recvType, name];
      JoinTwo(recvType, name);
    } else if recvType == "" {
      assert parts == [mod, name];
      JoinTwo(mod, name);
    } else {
      assert parts == [mod, recvType, name];
      JoinThree(mod, recvType, name);
    }
  }

  /** A call `pkg.F()` resolves to the name under which the imported package registers F. */
  lemma PackageCall(imports: Imports, mod: FQN, alias: string, name: string)
    requires '.' !in alias && alias in imports && imports[alias] != ""
    ensures ResolveGoCallee(imports, mod, alias + "." + name) == ComposeName(imports[alias], name, "")
  {
    HeadResolved(imports, mod, alias, name);
    ComposedName(imports[alias], name, "");
  }

  /** A call `F()` of the same package resolves to the registered name of F. */
  lemma SamePackageCall(imports: Imports, mod: FQN, name: string)
    requires '.' !in name && name !in imports
    ensures ResolveGoCallee(imports, mod, name) == ComposeName(mod, name, "")
  {
    SplitPlain(name, '.');
    ComposedName(mod, name, "");
  }

  /** The name of a type followed by a method is the registered name of the method with
      that receiver type. */
  lemma MethodName(mod: FQN, imports: Imports, ty: string, name: string)
    requires ty != ""
    ensures TypeName(mod, imports, Named(ty)) + "." + name == ComposeName(mod, name, ty)
  {
    ComposedName(mod, name, ty);
  }

  /** A call on a tracked variable whose type is `ty` of package `mod` is a call of the
      registered method, whatever the package of the caller. */
  lemma TrackedCall(env: Env, e: Expr, locals: Locals, mod: FQN, imports: Imports, ty: string)
    requires e.CallExpr? && e.fn.Selector? && e.fn.operand.Ident? && e.fn.operand.text in locals && ty != ""
    requires locals[e.fn.operand.text] == TypeName(mod, imports, Named(ty))
    ensures CallAt(env, e, Some(locals)).callee == ComposeName(mod, e.fn.field, ty)
  {
    MethodName(mod, imports, ty, e.fn.field);
  }

  /** The same for a type of an imported package. */
  lemma QualifiedMethod(mod: FQN, imports: Imports, pkg: string, ty: string, name: string)
    requires pkg != "" && ty != "" && pkg in imports && imports[pkg] != ""
    ensures TypeName(mod, imports, Qualified(pkg, ty)) + "." + name == ComposeName(imports[pkg], name, ty)
  {
    ComposedName(imports[pkg], name, ty);
  }

  /** A pointer, slice or the like has the name of its first part that has one. */
  lemma {:induction false} WrappedType(mod: FQN, imports: Imports, parts: seq<TypeExpr>)
    ensures
      var ty := TypeName(mod, imports, Wrapping(parts));
      if ty == "" then forall i :: 0 <= i < |parts| ==> TypeName(mod, imports, parts[i]) == ""
      else exists i :: 0 <= i < |parts| && ty == TypeName(mod, imports, parts[i])
                       && forall k :: 0 <= k < i ==> TypeName(mod, imports, parts[k]) == ""
  {
    if parts != [] && TypeName(mod, imports, parts[0]) == "" {
      WrappedType(mod, imports, parts[1..]);
      assert forall i :: 0 < i < |parts| ==> parts[i] == parts[1..][i - 1];
      var ty := TypeName(mod, imports, Wrapping(parts[1..]));
      if ty != "" {
        var i :| 0 <= i < |parts| - 1 && ty == TypeName(mod, imports, parts[1..][i])
                 && forall k :: 0 <= k < i ==> TypeName(mod, imports, parts[1..][k]) == "";
        assert ty == TypeName(mod, imports, parts[i + 1]);
      }
    }
  }
}
