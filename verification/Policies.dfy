/** Policies and the matching of single call sites and attribute reads. */
module Policies {
  import opened Text
  import opened CallGraph

  /** Validated predicates set exactly one kind. */
  datatype Predicate = Calls(pattern: string) | HasDecorator(name: string) | FieldRead(pattern: string)
  datatype Matcher = Matcher(anyOf: seq<Predicate>)
  datatype FixLevel = Unset | Idiomatic | Cosmetic | Semantic
  datatype Fix = Fix(level: FixLevel, suggestion: string, wrapArgument: Option<int>)
  datatype Severity = Error | Warning | Info
  datatype Policy = Policy(id: string, severity: Severity, message: string,
                           source: Matcher, sink: Matcher, guard: Matcher, fix: Option<Fix>)

  const WILDCARD := ".*"

  /** `name` is `prefix` or starts with `prefix` and a dot. */
  predicate Under(prefix: string, name: string) {
    name == prefix || HasPrefix(name, prefix + ".")
  }

  /** A trailing `.*` matches the prefix and everything below it; any other pattern
      must equal the resolved callee or the raw text. */
  predicate CallsMatches(pattern: string, site: CallSite) {
    if HasSuffix(pattern, WILDCARD) then Under(TrimSuffix(pattern, WILDCARD), site.callee)
    else site.callee == pattern || site.raw == pattern
  }

  predicate FieldMatches(pattern: string, access: FieldAccess) {
    if HasPrefix(pattern, "*.") then access.field == TrimPrefix(pattern, "*.")
    else access.path == pattern
  }

  predicate MatchesCall(m: Matcher, site: CallSite) {
    exists pred :: pred in m.anyOf && pred.Calls? && CallsMatches(pred.pattern, site)
  }

  predicate MatchesField(m: Matcher, access: FieldAccess) {
    exists pred :: pred in m.anyOf && pred.FieldRead? && FieldMatches(pred.pattern, access)
  }

  predicate MatchesDecorator(m: Matcher, decorator: string) {
    exists pred :: pred in m.anyOf && pred.HasDecorator? && TrimPrefix(pred.name, "@") == decorator
  }

  /** The wildcard works on whole dotted segments: `anthropic.*` covers
      `anthropic.messages.create` but not `anthropicx.create`. */
  lemma WildcardMatchesWholeSegments(prefix: string, site: CallSite)
    ensures CallsMatches(prefix + WILDCARD, site) <==> Split(prefix, '.') <= Split(site.callee, '.')
  {
    var pattern := prefix + WILDCARD;
    assert HasSuffix(pattern, WILDCARD) && TrimSuffix(pattern, WILDCARD) == prefix;
    UnderIsSegmentPrefix(prefix, site.callee);
  }

  lemma UnderIsSegmentPrefix(prefix: string, name: string)
    ensures Under(prefix, name) <==> Split(prefix, '.') <= Split(name, '.')
  {
    var head, all := Split(prefix, '.'), Split(name, '.');
    if Under(prefix, name) && name != prefix {
      var rest := name[|prefix| + 1..];
      assert name == prefix + ['.'] + rest;
      SplitAt(prefix, '.', rest);
    }
    if head <= all {
      SegmentPrefixIsUnder(prefix, name, all[|head|..]);
    }
  }

  lemma SegmentPrefixIsUnder(prefix: string, name: string, rest: seq<string>)
    requires Split(name, '.') == Split(prefix, '.') + rest
    ensures Under(prefix, name)
  {
    JoinSplit(prefix, '.');
    JoinSplit(name, '.');
    if rest == [] {
      assert Split(name, '.') == Split(prefix, '.');
    } else {
      JoinAppend(Split(prefix, '.'), rest, '.');
      assert prefix + "." == (prefix + ['.'] + Join(rest, '.'))[..|prefix| + 1];
    }
  }

  /** `*.f` matches every read of the attribute f, on whatever object. */
  lemma WildcardReadsAnyObject(field: string, access: FieldAccess)
    ensures FieldMatches("*." + field, access) <==> access.field == field
  {
    assert ("*." + field)[2..] == field;
  }

  /** A leading `@` in the policy makes no difference. */
  lemma DecoratorMarkIgnored(name: string, before: seq<Predicate>, after: seq<Predicate>, decorator: string)
    requires !HasPrefix(name, "@")
    ensures MatchesDecorator(Matcher(before + [HasDecorator("@" + name)] + after), decorator)
       <==> MatchesDecorator(Matcher(before + [HasDecorator(name)] + after), decorator)
  {
    var marked, plain := HasDecorator("@" + name), HasDecorator(name);
    assert TrimPrefix(marked.name, "@") == name == TrimPrefix(plain.name, "@");
    forall pred ensures pred in before + [marked] + after <==> pred in before || pred == marked || pred in after {
    }
    forall pred ensures pred in before + [plain] + after <==> pred in before || pred == plain || pred in after {
    }
  }
}
