/** The interprocedural call graph: what it holds and how it is filled. */
module CallGraph {
  import opened Text
  import opened Syntax

  datatype FuncNode = FuncNode(fqn: FQN, file: File, line: int, decorators: seq<string>, returnType: string)
  datatype CallSite = CallSite(caller: FQN, callee: FQN, raw: string, file: File, node: Option<Node>, line: int)
  datatype FieldAccess = FieldAccess(caller: FQN, field: string, path: string, file: File, line: int)
  datatype Suppression = Suppression(path: string, line: int, policyIDs: seq<string>)

  /** The contents of a graph at one moment. */
  datatype Snapshot = Snapshot(
    funcs: map<FQN, FuncNode>,
    calls: map<FQN, seq<CallSite>>,
    fields: map<FQN, seq<FieldAccess>>,
    suppressions: map<string, seq<Suppression>>)
  {
    /** Every entry sits under the key it names. */
    ghost predicate KeysAgree() {
      && (forall f :: f in funcs ==> funcs[f].fqn == f)
      && (forall f, s :: f in calls && s in calls[f] ==> s.caller == f)
      && (forall f, a :: f in fields && a in fields[f] ==> a.caller == f)
      && (forall p, s :: p in suppressions && s in suppressions[p] ==> s.path == p)
    }

    /** Some annotation on `path` names `policyID` or `*`, on `line` or the line above. */
    predicate Suppresses(path: string, line: int, policyID: string) {
      exists s :: s in Bucket(suppressions, path) && Covers(s, line, policyID)
    }
  }

  predicate Covers(s: Suppression, line: int, policyID: string) {
    (s.line == line || s.line + 1 == line) && ("*" in s.policyIDs || policyID in s.policyIDs)
  }

  const EMPTY := Snapshot(map[], map[], map[], map[])

  /** Appends to the slice stored under a key. */
  function Append<K, V>(m: map<K, seq<V>>, k: K, v: V): map<K, seq<V>> {
    m[k := Bucket(m, k) + [v]]
  }

  class Graph {
    var Funcs: map<FQN, FuncNode>
    var Calls: map<FQN, seq<CallSite>>
    var Fields: map<FQN, seq<FieldAccess>>
    var Suppressions: map<string, seq<Suppression>>

    function View(): Snapshot
      reads this
    {
      Snapshot(Funcs, Calls, Fields, Suppressions)
    }

    ghost predicate Valid()
      reads this
    {
      View().KeysAgree()
    }

    constructor ()
      ensures Valid() && View() == EMPTY
    {
      Funcs, Calls, Fields, Suppressions := map[], map[], map[], map[];
    }

    /** Duplicate names overwrite: the latest definition is kept. */
    method AddFunc(fn: FuncNode)
      requires Valid()
      modifies this
      ensures Valid()
      ensures View() == old(View()).(funcs := old(Funcs)[fn.fqn := fn])
    {
      Funcs := Funcs[fn.fqn := fn];
    }

    method AddCall(c: CallSite)
      requires Valid()
      modifies this
      ensures Valid()
      ensures View() == old(View()).(calls := Append(old(Calls), c.caller, c))
    {
      Calls := Calls[c.caller := Bucket(Calls, c.caller) + [c]];
    }

    method AddField(a: FieldAccess)
      requires Valid()
      modifies this
      ensures Valid()
      ensures View() == old(View()).(fields := Append(old(Fields), a.caller, a))
    {
      Fields := Fields[a.caller := Bucket(Fields, a.caller) + [a]];
    }

    method AddSuppression(s: Suppression)
      requires Valid()
      modifies this
      ensures Valid()
      ensures View() == old(View()).(suppressions := Append(old(Suppressions), s.path, s))
      ensures forall line, id :: Covers(s, line, id) ==> View().Suppresses(s.path, line, id)
    {
      Suppressions := Suppressions[s.path := Bucket(Suppressions, s.path) + [s]];
      assert s in Bucket(Suppressions, s.path);
    }

    method MatchSuppression(path: string, line: int, policyID: string) returns (hit: bool)
      ensures hit == View().Suppresses(path, line, policyID)
    {
      var entries := Bucket(Suppressions, path);
      for i := 0 to |entries|
        invariant forall k :: 0 <= k < i ==> !Covers(entries[k], line, policyID)
      {
        var s := entries[i];
        if s.line != line && s.line + 1 != line {
          continue;
        }
        for j := 0 to |s.policyIDs|
          invariant forall k :: 0 <= k < j ==> s.policyIDs[k] != "*" && s.policyIDs[k] != policyID
        {
          if s.policyIDs[j] == "*" || s.policyIDs[j] == policyID {
            assert s in entries && s.policyIDs[j] in s.policyIDs;
            return true;
          }
        }
      }
      return false;
    }
  }
}
