# policyguard: a Dafny model

policyguard decides, over a call graph, whether code that reaches a *source* and a *sink*
also reaches a *guard*. This project models that decision and what surrounds it, and
proves what a user of the findings relies on.

| file | models |
|---|---|
| `Reachability.dfy`, `BreadthFirst.dfy` | closure by explicit stack, shortest chains by BFS (`internal/engine/engine.go`) |
| `Matching.dfy`, `Policies.dfy`, `Solver.dfy` | matchers, callee and bridge maps, evidence, verdict (`internal/engine/engine.go`) |
| `FirstEvidence.dfy` | which source, sink and chain a finding names, stated on the graph alone (`internal/engine/engine.go`) |
| `Analysis.dfy`, `MinimalViolators.dfy` | the whole analysis and what its result means (`internal/engine/engine.go`) |
| `DecoratorSources.dfy`, `Examples.dfy` | decorators under `source`, and small graphs that show where code and documentation part |
| `Autofix.dfy`, `PatchApply.dfy`, `LinePatch.dfy` | building a line patch and replaying it (`internal/engine/engine.go`, `internal/cli/cli.go`) |
| `ServiceMap.dfy`, `ServiceHops.dfy` | cross-service edges, and where they show in a chain (`internal/servicemap/servicemap.go`) |
| `CallGraph.dfy` | the graph and its invariant (`internal/callgraph/graph.go`) |
| `PythonWalk.dfy`, `PythonGraph.dfy` | the Python extractor (`internal/callgraph/python.go`) |
| `PythonDefinitions.dfy`, `PythonCalls.dfy` | from the tree to registered functions and decorators, from an import statement to an edge of the built graph (`internal/callgraph/python.go`) |
| `GoBuild.dfy`, `GoOrder.dfy`, `GoModuleScope.dfy`, `GoFindings.dfy` | the two-phase Go extractor and the order of its files (`internal/callgraph/golang.go`) |
| `GoCalls.dfy` | from imports, parameters and declarations to the recorded calls of a Go body (`internal/callgraph/golang.go`) |
| `RelativeImports.dfy` | import arithmetic (`internal/callgraph/python.go`, `internal/callgraph/typescript.go`) |
| `ModulePaths.dfy`, `ImportTargets.dfy` | module names of paths, and which of them relative imports name (the same two files) |
| `Framing.dfy` | message framing (`internal/lsp/server.go`), section "Base Protocol" (Header Part) of the Language Server Protocol specification 3.17 |
| `Naming.dfy` | call resolution against registration, for both extractors |
| `Pipeline.dfy` | build, apply the service map, run every policy (`internal/cli/cli.go`) |
| `ParsedTrees.dfy`, `ApplyRun.dfy`, `LostPatches.dfy` | a run that applies the patches of its own findings (`internal/cli/cli.go`) |
| `Syntax.dfy`, `Sorting.dfy`, `Text.dfy` | syntax trees, library sort, strings |

Verify with `dafny verify dfyconfig.toml`.

Conventions. A string is a sequence of bytes and one `char` is one byte. Go's map iteration is
an arbitrary choice of the next key, so a method proved here is proved for every iteration
order. Unstable library sorting is any sorted permutation. Objects whose fields the program
updates are classes; a method's contract ties the new contents to a function of the old ones,
and the lemmas speak about that function.

How the solver's results fit together. The reported functions are defined without closures or
sizes: `Reported` holds of a violator that every violator it reaches can reach back. A chain is
pinned down without a queue: `FirstChain` is the shortest chain that comes first in call order.
`Analyze` is proved to return exactly the sequence `IsAnalysis` describes, and there is only
one such sequence, so the analysis is deterministic although the program iterates over maps.
`FindingIff` and `ModuleFindingIff` say what each finding holds without naming the collecting
functions: the first matching call of the reachable function whose name comes first, or such a
read when no reachable call matches.

Where code and documentation differ, the model follows the code:
- `README.md:80` of the program says that when F calls G and both violate, only G is reported.
  F is reported too exactly when G calls back to F and is reported itself (`CallerReportedIff`):
  mutually recursive violators are reported together, or not at all when they reach a lower
  violator (`MutualRecursionAlike`). `CycleIsReported` gives two functions that call each other
  and are both reported.
- `README.md:59` shows `has_decorator` under `source`, where it has no effect
  (`DecoratorsNeverReport`). `DocumentedIff` says exactly for which functions documentation and
  code agree, and `DecoratedSourceMissed` gives a graph and a policy for which they do not.
- A patch is not always skipped on a later run. It is skipped unless the guard name contains a
  newline and its first line equals the rest of the patched line, and then it applies every time
  (`LaterRun`); the input `f(x)` with a guard name starting `x)` and a newline shows it
  (`EveryRunCanApply`).
- `internal/cli/cli.go:208-210` says that exit code 0 means that all patches were applied. A
  skipped patch does not change the exit code: it is 0 when every finding has a patch
  (`CheckAndApply`), while of several patches for one line only one takes effect
  (`NoneLostIff`). Two policies with the same sink that wrap the same argument patch the same
  line, differently when their first guard calls differ (`CompetingPatches`); `PatchIsLost` gives
  a file and two policies whose report holds such patches.
- `internal/callgraph/python.go:387-390` describes calls through a plain import. `import M` and
  then `M.f()` resolves to `M.f` exactly when M has a single segment; a dotted import doubles its
  tail (`ImportedCall`).
- `internal/callgraph/python.go:72-74` calls the result the package that contains the file. A root
  file is its own package when it is `__init__.py` and also, scanned from the current directory,
  when its name merely ends in `__init__` (`RootPackage`). Dots in names move the package too:
  it is the directory exactly under `PythonAnchored` (`PackageIsDirectory`).
- `internal/callgraph/typescript.go:81-82` says the same of TypeScript. For an index file below
  the root the result is one directory too high. It is one part too deep for each dot that the
  name has without its extension, as in `user.service.ts` (`PackageOfPath`): `./helper` in
  src/user.service.ts misses src/helper.ts (`DottedFileName`).
- `internal/callgraph/typescript.go:113-116` says that stripping extensions does not matter. An
  import source that writes `.js` or `.jsx` keeps it, while module names drop it, so it misses
  its module (`WrittenExtension`); so does one that names an index file below the root, or a
  directory whose name ends in `.ts` or `.tsx` (`RelativeSourceNamesModule`).
- `internal/callgraph/typescript.go:182-186` says that an import which climbs past the project
  root is skipped. It is not: it resolves to the module of that name at the root
  (`PastRootNamesRoot`). The Python side resolves such imports to nothing (`NothingPastRoot`).
- `internal/servicemap/servicemap.go:16-17` says that `from` has the forms of a policy's `calls`.
  A wildcard there also covers sites by their raw text alone (`FormsDifferOnRawText`).

The Go build and the order of the files. If no two files define the same function, functions
and what they call and read do not depend on the order (`FileOrderIrrelevant`), and neither do
the findings at functions of a whole run (`FindingsOrderFree`). The whole graph does not depend on
it exactly when, besides, at most one file makes calls at module scope and at most one reads
attributes there (`GraphOrderIff`). `RepeatedInitShows` and `ModuleScopeOrderShows` give legal
files for which it does.

## Model

| member | source | states |
|---|---|---|
| Reachability.TransitiveCallees | internal/engine/engine.go:650-666 | the stack and visited map yield exactly the names reachable by zero or more callee edges, on any graph, and terminate |
| Reachability.ClosureShrinks | internal/engine/engine.go:205-220 | the closure of anything in F's closure lies inside F's closure |
| Reachability.SizeTest | internal/engine/engine.go:205-220 | for G in F's closure, comparing closure sizes is an exact strict-subset test: smaller exactly when F is not reachable from G |
| BreadthFirst.ShortestPath | internal/engine/engine.go:606-634 | nil exactly when an end is empty or the target unreachable; otherwise a shortest chain, and among the shortest the first in call order, although the search returns at discovery |
| BreadthFirst.ScanCallees | internal/engine/engine.go:622-631 | the inner loop keeps the search tree, or stops with the target as the newest discovery |
| BreadthFirst.ReconstructPath | internal/engine/engine.go:636-648 | climbing the parents map is well-founded and yields the path of the search tree from the start |
| BreadthFirst.ReverseInPlace | internal/engine/engine.go:644-646 | the swapping loop reverses the slice |
| BreadthFirst.NewestIsFirstChain | internal/engine/engine.go:617-631 | the tree path to the newest discovery is no longer than any chain and comes before every other shortest one |
| BreadthFirst.FirstChainSimple | internal/engine/engine.go:606-634 | a returned chain never visits a function twice |
| BreadthFirst.FirstChainUnique | internal/engine/engine.go:606-634 | the chain is determined by graph and endpoints |
| BreadthFirst.FirstChainExists | internal/engine/engine.go:606-634 | a reachable target always has such a chain |
| Policies.WildcardMatchesWholeSegments | internal/engine/engine.go:776-790 | `p.*` matches a callee exactly when the dotted segments of `p` are a prefix of the callee's segments |
| Policies.WildcardReadsAnyObject | internal/engine/engine.go:764-774 | `*.f` matches exactly the reads of attribute f |
| Policies.DecoratorMarkIgnored | internal/engine/engine.go:458-474 | a leading `@` in a decorator predicate makes no difference |
| Matching.FirstMatchAny | internal/engine/engine.go:712-730 | hits exactly when some call or read matches; the first matching call, and only without one the first matching read |
| Solver.EdgeIsCall | internal/engine/engine.go:529-554 | an edge is a call, outside module scope, of a registered function |
| Solver.BuildCalleeMap | internal/engine/engine.go:532-554 | for every iteration order, the internal callees of each caller, each once, in order of first call |
| Solver.CalleesInCallOrder | internal/engine/engine.go:532-554 | of two callees in a list, the earlier one has a call before every call of the later one |
| Solver.BuildBridgeMap | internal/engine/engine.go:564-584 | for each edge, and for nothing else, the first call site that makes it |
| Solver.SortedFuncFQNs | internal/engine/engine.go:668-680 | the registered names in ascending order, whatever the iteration order |
| Solver.Collect | internal/engine/engine.go:681-695 | the result can be cut into one piece per name, in ascending order of names: the bucket of a member of the closure, nothing for any other name; also for reads (430-441) and decorators (443-456) |
| Solver.Gathered | internal/engine/engine.go:681-695 | an entry is collected exactly when some reachable function holds it |
| Solver.HitIff | internal/engine/engine.go:718-730 | a search over the closure hits exactly when some reachable body holds a match |
| Solver.GuardIff | internal/engine/engine.go:519-527 | a guard is satisfied exactly when a reachable function calls, reads or is decorated with one |
| Solver.VerdictIff | internal/engine/engine.go:491-517 | a function violates exactly when a source and a sink are reachable from it and no guard is |
| Solver.CarrierReachable | internal/engine/engine.go:712-730 | the function whose body holds a reported site is registered and reachable |
| Analysis.ChainHops | internal/engine/engine.go:586-604 | every hop but the last sits at the first call of the next hop's function; the last hop has no place |
| Analysis.RenderChain | internal/engine/engine.go:197-198 | BFS then annotation gives a genuine counterexample for every reachable carrier |
| Analysis.ComputeClosures | internal/engine/engine.go:182-185 | the closure of every registered function |
| Analysis.AnalyzeOne | internal/engine/engine.go:188-201 | a finding exactly for a violator, with its sites, fix and two genuine chains |
| Analysis.FindViolators | internal/engine/engine.go:187-201 | the violators map holds exactly the violators, each with its finding, for every iteration order |
| Analysis.MinimalViolators | internal/engine/engine.go:203-227 | keeps exactly the violators without a violator of smaller closure in their closure, each once |
| Analysis.SmallestIsReported | internal/engine/engine.go:203-220 | that size comparison selects exactly the violators that can be reached back from every violator they reach |
| Analysis.AnalyzeFunctions | internal/engine/engine.go:175-228 | one finding for each reported function and no other |
| Analysis.AnalyzeModuleScope | internal/engine/engine.go:230-247 | at most one finding, from module-scope evidence only, without chains |
| Analysis.FilterSuppressed | internal/engine/engine.go:157-173 | the in-place compaction leaves exactly the unsuppressed findings, in order |
| Analysis.Analyze | internal/engine/engine.go:131-155 | returns exactly the expected findings in ascending order of function name, for every iteration order and sort |
| Analysis.CounterexampleUnique | internal/engine/engine.go:586-648 | a counterexample is determined by graph and endpoints |
| MinimalViolators.AnalysisUnique | internal/engine/engine.go:131-155 | two runs on one graph return the same sequence |
| MinimalViolators.GuardFreedomInherited | internal/engine/engine.go:491-494 | below a violator only a missing source or sink can prevent a violation |
| MinimalViolators.Coverage | internal/engine/engine.go:203-227 | every violator reaches a reported function |
| MinimalViolators.NothingReportedIff | internal/engine/engine.go:203-227 | nothing is reported exactly when no function violates |
| MinimalViolators.AnalyzeCovers | internal/engine/engine.go:131-155 | for every violator the result holds a finding at a function it reaches, or an annotation covers that finding |
| MinimalViolators.FindingExists | internal/engine/engine.go:188-201 | every violator has a finding |
| MinimalViolators.ReportedReachOnlyMutually | internal/engine/engine.go:203-227 | a reported function reaches another one only when they call each other |
| MinimalViolators.LowestPoint | internal/engine/engine.go:203-227 | what a reported function reaches with a smaller closure lacks a source or lacks a sink |
| MinimalViolators.MutualRecursionAlike | internal/engine/engine.go:203-207 | mutually recursive functions share closure and verdict, and are reported together or not at all |
| MinimalViolators.CallerReportedIff | internal/engine/engine.go:203-227 | when F reaches G and both violate, F is reported too exactly when G calls back to F and is reported itself |
| MinimalViolators.MutualRecursionSameSites | internal/engine/engine.go:187-201 | the findings of mutually recursive functions name the same source, the same sink, and the same fix level and patch |
| Examples.CycleIsReported | internal/engine/engine.go:203-227 | two functions that call each other and are both reported |
| DecoratorSources.DecoratorsNeverReport | internal/engine/engine.go:491-517 | a policy whose source, or sink, names decorators only has an empty result on every graph |
| DecoratorSources.DocumentedIff | internal/engine/engine.go:491-517 | with decorators counted as source, the verdict is the same exactly when a guard is in reach, no sink is, a source call or read is, or no named decorator is |
| Examples.DecoratedSourceMissed | internal/engine/engine.go:491-517 | a decorated function with an unguarded sink call that the documented rule reports and the code does not |
| MinimalViolators.FindingsAreGenuine | internal/engine/engine.go:52-62 | both chains start at the reported function, repeat no function, carry real call sites and end where the site is held and matches |
| FirstEvidence.SearchIff | internal/engine/engine.go:681-730 | the search hits the first matching call of the reachable function that comes first by name among those with a matching call; only when no reachable function has one, the same for reads |
| FirstEvidence.FindingIff | internal/engine/engine.go:187-201 | a finding for f exists exactly when f violates; it names the first source and the first sink in that sense, with genuine chains to the functions that hold them |
| FirstEvidence.AnalysisReports | internal/engine/engine.go:131-155 | the findings at functions are exactly those of the reported functions of which no annotation covers the source and none the sink |
| FirstEvidence.ModuleFindingIff | internal/engine/engine.go:230-247 | there is a finding at module scope exactly when no guard, a source and a sink are there; it names the first matching call of each, or the first matching read |
| FirstEvidence.FirstChainByCalls | internal/engine/engine.go:606-634 | of the shortest chains the reported one is never left by an earlier call: where another one parts from it, the call of this one comes first in the body |
| CallGraph.Graph.constructor | internal/callgraph/graph.go:47-55 | an empty graph that meets the invariant |
| CallGraph.Graph.AddFunc | internal/callgraph/graph.go:145-149 | the latest definition of a name is kept, the rest unchanged, the invariant preserved |
| CallGraph.Graph.AddCall | internal/callgraph/graph.go:151-154 | appends under the caller's key, the rest unchanged, the invariant preserved |
| CallGraph.Graph.AddField | internal/callgraph/graph.go:156-159 | appends under the caller's key, the rest unchanged, the invariant preserved |
| CallGraph.Graph.AddSuppression | internal/callgraph/graph.go:66-69 | appends under the path; what the annotation covers is suppressed from then on |
| CallGraph.Graph.MatchSuppression | internal/callgraph/graph.go:71-92 | true exactly when an annotation on the path, on the line or the one above, names the policy or `*` |
| Autofix.LineAt | internal/engine/engine.go:388-413 | succeeds exactly for lines 1 to newlines + 1 and returns that element of the file split on newlines |
| Autofix.FindArgumentList | internal/engine/engine.go:348-365 | the `arguments` field when it is an argument list, else the first such child; absent exactly when there is none |
| Autofix.PositionalAtIff | internal/engine/engine.go:367-386 | the same of the specification, both ways: an argument is the idx-th exactly by the number of positional children left of it |
| Autofix.NthPositionalArg | internal/engine/engine.go:367-386 | the counting loop returns the child that is no keyword argument and has exactly idx such children left of it; nothing exactly when idx is negative or there are no more than idx |
| Autofix.FirstGuardCall | internal/engine/engine.go:286-296 | the first `calls` predicate of the guard, or nothing |
| LinePatch.PatchExistsIff | internal/engine/engine.go:319-338 | with rows and columns that agree with bytes, a patch exists exactly for a non-empty single-line argument: the line and column bail-outs never fire |
| LinePatch.PatchIsSplice | internal/engine/engine.go:326-345 | replayed on the unchanged file the patch applies once and the file is the byte splice |
| LinePatch.WrapPatchIsSplice | internal/engine/engine.go:304-346 | from the call site: the file becomes what stands before the argument, the guard name, the argument in brackets, and what stands behind; the argument is the one with the requested number of positional arguments left of it |
| LinePatch.FindingPatchWraps | internal/engine/engine.go:277-346 | a finding's patch edits the file of the reported sink, a matching call in a reachable body, and puts the positional argument that the policy asks for, counted from the left, in brackets behind the first `calls` predicate of the guard |
| LinePatch.FixOffered | internal/engine/engine.go:254-284 | a fix exists exactly when the policy has one, with its level or idiomatic; it has a patch exactly when the sink is a call, the guard has a `calls` predicate and the requested argument exists on one line |
| LinePatch.RunsFit | internal/cli/cli.go:274-283 | run again and again, any patch that fits once fits every time or never again, by whether its new text starts with the old line |
| LinePatch.LaterRun | internal/cli/cli.go:278-281 | after any number of runs the same patch applies again exactly when the guard name has a newline and its first line is the rest of the old line; otherwise it is skipped |
| LinePatch.LaterRunSkipped | internal/cli/cli.go:278-281 | without a newline in the guard name the file stays what the first run made of it |
| LinePatch.EveryRunCanApply | internal/cli/cli.go:278-281 | an input whose patch applies on every run |
| PatchApply.ApplyFilePatches | internal/cli/cli.go:260-299 | overwriting lines in place with a seen map and a counter: first fitting patch per line, stop at a patch outside, write only after a complete and useful pass |
| PatchApply.OutsideMeansNothing | internal/cli/cli.go:234-240 | with lines from 1 and descending order, a patch outside the file gives (false, 0) and no write |
| PatchApply.OutsideMeansNoWrite | internal/cli/cli.go:269-273 | whatever the order, a patch outside the file prevents the write |
| PatchApply.ReplayRewrites | internal/cli/cli.go:260-299 | for any order of the patches exactly the fitted lines change, each to the new line of a fitting patch, the line count stays, and the counter is their number |
| PatchApply.GroupByFile | internal/cli/cli.go:218-230 | each path gets exactly the patches of its findings, in order |
| PatchApply.PatchOneFile | internal/cli/cli.go:234-245 | one file is rewritten by its own patches, or left alone and counted as failed |
| PatchApply.ApplyPatches | internal/cli/cli.go:218-258 | for every order of files each file is rewritten by its own patches only; exit code 0 exactly when every finding had a patch inside a readable file |
| ServiceMap.FormsDifferOnRawText | internal/servicemap/servicemap.go:138-151 | an edge matches whatever a `calls` predicate of the same form matches, and beyond that exactly the sites whose raw text alone lies under a wildcard |
| ServiceMap.AddPending | internal/servicemap/servicemap.go:126-135 | the adding loop appends one synthetic site per pending one to its caller's bucket |
| ServiceMap.ApplyEdge | internal/servicemap/servicemap.go:112-136 | every bucket grows by one synthetic site per site that matched before, for every iteration order; nothing else changes |
| ServiceMap.CollectPending | internal/servicemap/servicemap.go:117-125 | per caller, the matching sites in order |
| ServiceMap.Apply | internal/servicemap/servicemap.go:100-110 | the live edges in map order, each on the result of the ones before; the graph invariant is kept |
| ServiceMap.CallsStayPrefix | internal/servicemap/servicemap.go:91-99 | each caller's original call list stays a prefix |
| ServiceMap.AddsOnePerMatch | internal/servicemap/servicemap.go:117-135 | each edge adds exactly as many sites as matched before it ran, so an edge that matches its own target ends |
| ServiceMap.Provenance | internal/servicemap/servicemap.go:91-136 | a call is present afterwards exactly when it is original or calls the target of a chain of live edges from an original site of the same caller, with the file, the node and the line of that site |
| ServiceMap.AddedInOrder | internal/servicemap/servicemap.go:112-136 | one edge keeps each bucket and adds behind it, in their order, a call of the target at the place of each matching site |
| ServiceHops.HopShowsClient | internal/engine/engine.go:586-604 | a hop over an edge that only the map brings shows file and line of an original call in that body, one that leads to the first map edge which brings the callee, and the first such call when that edge matches an original one |
| ServiceMap.KeepsWellFormed | internal/servicemap/servicemap.go:94-105 | the graph stays fit for the solver and every added call has a known target |
| ServiceMap.ReachabilityGrows | internal/servicemap/servicemap.go:91-99 | what was reachable stays reachable |
| ServiceMap.ClosureGrows | internal/servicemap/servicemap.go:91-99 | every closure can only grow |
| ServiceMap.EvidenceStays | internal/servicemap/servicemap.go:91-99 | sources, sinks and guards in reach stay in reach |
| ServiceMap.VerdictChanges | internal/servicemap/servicemap.go:91-99 | a violation disappears only through a guard newly in reach and appears only through a source or sink newly in reach |
| PythonWalk.PyExtractor.WalkNode | internal/callgraph/python.go:152-187 | the stateful walk restores scope and enclosing function and computes the state of the environment-passing walk |
| PythonWalk.PyExtractor.WalkChildren | internal/callgraph/python.go:184-186 | the same for the children of a node, left to right |
| PythonWalk.PyExtractor.HandleDecorated | internal/callgraph/python.go:201-224 | walks the last definition inside with all decorators attached |
| PythonWalk.PyExtractor.HandleClass | internal/callgraph/python.go:303-318 | walks the body one scope deeper and restores the scope |
| PythonWalk.PyExtractor.HandleFunction | internal/callgraph/python.go:320-352 | registers the function, walks its body under its name, restores scope and function |
| PythonWalk.PyExtractor.HandleCall | internal/callgraph/python.go:370-385 | records the call under the enclosing function with its resolved callee |
| PythonWalk.PyExtractor.HandleFieldAccess | internal/callgraph/python.go:354-368 | records the read under the enclosing function |
| PythonWalk.PyExtractor.HandleImport | internal/callgraph/python.go:251-269 | the bindings of the children, left to right |
| PythonWalk.PyExtractor.HandleImportFrom | internal/callgraph/python.go:271-301 | the bindings below the resolved module, none when it leaves the project |
| PythonWalk.PyExtractor.ResolveModuleName | internal/callgraph/python.go:86-123 | the absolute module name of an absolute or relative import |
| PythonGraph.WalkRecordsEvents | internal/callgraph/python.go:152-187 | every visited call, and every attribute that is not called, is recorded exactly once, in order, under its innermost enclosing function, with its file, node, line and text; every definition registers its name with file, line and the decorators written above it; nothing else changes |
| PythonGraph.WalkKeepsSound | internal/callgraph/python.go:303-385 | every key of calls and fields is module scope or a registered function and equals the caller of its entries |
| PythonGraph.EventsWithin | internal/callgraph/python.go:152-187 | a subtree is recorded under its enclosing function or one defined inside it |
| PythonGraph.BodyStaysInside | internal/callgraph/python.go:320-352 | nothing in a function's body is recorded outside that function |
| PythonGraph.BuildPython | internal/callgraph/python.go:15-27 | file after file, each with imports of its own |
| PythonGraph.BuiltRecordsEvents | internal/callgraph/python.go:15-27 | the graph of a set of files holds exactly their events |
| PythonDefinitions.RegisteredAsWritten | internal/callgraph/python.go:320-352 | the registered functions are exactly those that some tree defines, under the names of the definitions around them; each has file, line and decorators of its last definition |
| PythonDefinitions.OneDefinition | internal/callgraph/python.go:201-242 | a function that is defined once has the place of its definition and the names of the decorators above it, in order: of a called decorator the called name, else the whole expression |
| PythonDefinitions.DecoratedAsWritten | internal/callgraph/python.go:201-242 | in the built graph a function that is defined once counts as decorated exactly when a matching decorator is written above its definition |
| PythonDefinitions.WrittenGuardProtects | internal/engine/engine.go:491-527 | nothing that reaches a function with a guard decorator written above it violates |
| PythonGraph.BuiltIsSound | internal/callgraph/python.go:15-27 | the built graph meets everything the solver asks of its input |
| GoBuild.GoExtractor.DiscoverFunctions | internal/callgraph/golang.go:285-359 | phase A registers imports and functions with their return types and records nothing else |
| GoBuild.GoExtractor.WalkFile | internal/callgraph/golang.go:180-211 | phase B of one file |
| GoBuild.GoExtractor.WalkNode | internal/callgraph/golang.go:180-211 | the stateful walk records the events of the environment-passing one and changes no function |
| GoBuild.GoExtractor.RecordAndRecurse | internal/callgraph/golang.go:486-524 | registers only a missing function, walks the body with seeded types, restores function and types |
| GoBuild.GoExtractor.RecordShortVarDeclaration | internal/callgraph/golang.go:629-656 | binds the first name on the left to a known return type |
| GoBuild.GoExtractor.HandleCall | internal/callgraph/golang.go:693-720 | a call on a variable of tracked type resolves to the type's method |
| GoBuild.BuildGo | internal/callgraph/golang.go:44-69 | phase A over all files, then phase B over all files |
| GoOrder.BuiltIs | internal/callgraph/golang.go:44-69 | the graph is the map of phase A and the events of phase B: phase B overwrites no function |
| GoOrder.BucketOfOwner | internal/callgraph/golang.go:44-69 | with unique names a function's calls and reads come from the one file that defines it |
| GoOrder.FileOrderIrrelevant | internal/callgraph/golang.go:44-69 | when no two files define the same function, every permutation of them gives the same functions and the same call and read lists per function; module scope agrees up to order |
| GoFindings.FindingsOrderFree | internal/cli/cli.go:319-346 | when no two Go files define the same function, two runs with the files and the ignore directives in any order report the same findings at functions in the same order, chains and fixes included, after any service map and for any policies |
| GoModuleScope.ModuleShare | internal/callgraph/golang.go:180-211 | what a file records at module scope does not depend on other files, and there is a call or a read exactly when its source has one outside functions |
| GoModuleScope.ModuleScopeOrderIff | internal/callgraph/golang.go:56-68 | for distinct files the module-scope calls are the same in every order exactly when at most one file makes any; the same for reads |
| GoModuleScope.GraphOrderIff | internal/callgraph/golang.go:44-69 | for distinct files the whole graph is the same in every order exactly when no two files define the same function, at most one calls and at most one reads at module scope |
| GoModuleScope.ModuleScopeOrderShows | internal/callgraph/golang.go:56-68 | two files whose order shows in the module-scope calls |
| GoModuleScope.RepeatedInitShows | internal/callgraph/golang.go:47-54 | two files of one package that both declare `init`, whose order shows in the functions |
| Naming.FromImportedCall | internal/callgraph/python.go:387-405 | a call of a name imported from module X resolves to the name under which X registers it |
| Naming.FromImportedMethodCall | internal/callgraph/python.go:387-405 | the same for a method of an imported class |
| Naming.LocalCall | internal/callgraph/python.go:387-405 | a bare unimported name resolves to the function of the same file |
| Naming.ImportedCall | internal/callgraph/python.go:251-269 | after `import M` a call `M.f()` resolves to `M.f` exactly when M has one segment |
| Naming.PackageCall | internal/callgraph/golang.go:722-738 | a call through an imported package resolves to the name that package registers |
| Naming.SamePackageCall | internal/callgraph/golang.go:722-738 | an unimported name resolves to the registered name of the same package |
| Naming.MethodName | internal/callgraph/golang.go:361-372 | type name and method give the registered name of the method |
| Naming.QualifiedMethod | internal/callgraph/golang.go:597-616 | the same for a type of an imported package |
| Naming.WrappedType | internal/callgraph/golang.go:574-588 | a pointer, slice or the like has the name of its first part that has one, and none when no part has |
| Naming.TrackedCall | internal/callgraph/golang.go:699-710 | a call on a variable of tracked type is a call of the registered method |
| GoCalls.WalkFits | internal/callgraph/golang.go:180-211 | every call and every selector that is not called is recorded exactly once, outside in and left to right, with its text, node and line; a call on a name goes to the method of its type, when that is known and kept, else by its text |
| GoCalls.ImportBinds | internal/callgraph/golang.go:229-284 | an import without alias binds the last path segment that is neither empty nor a version, a named one its alias, a blank or dot import nothing; other names keep their meaning |
| GoCalls.VersionIff | internal/callgraph/golang.go:273-283 | a version segment is `v` and at least one digit, and digits only |
| GoCalls.PackageCallRecorded | internal/callgraph/golang.go:213-271 | after an import that binds a name, not bound again and without a type of its own, the built graph records `name.F()` under the path and F |
| GoCalls.PackageCallEdge | internal/engine/engine.go:529-554 | when a file of that package defines F, the call is an edge of the callee map to it |
| GoCalls.SamePackageCallRecorded | internal/callgraph/golang.go:722-738 | the built graph records `F()` of a name that no import binds under the package and F |
| GoCalls.ParameterCall | internal/callgraph/golang.go:526-557 | the built graph records a call on a receiver or parameter, the last of its name with a type that resolves, under the method of that type |
| GoCalls.ReadRecorded | internal/callgraph/golang.go:749-766 | the built graph records a selector that is not called with its field, text and line |
| GoCalls.Registered | internal/callgraph/golang.go:310-359 | a function that one file defines has the place of its last declaration there, no decorators, and its result type by the imports before it |
| GoCalls.InferredCall | internal/callgraph/golang.go:54-69 | where a body holds `r := f()` and later a call on r, the built graph records that call as one of f's result type, wherever in the build f's file stands |
| RelativeImports.RelativeBaseComposes | internal/callgraph/python.go:125-150 | d1 then d2 dots are d1 + d2 - 1 dots, with the same failures past the root |
| ImportTargets.ModuleOfPythonPath | internal/callgraph/python.go:29-40 | the module name of any file is its path with dots, `__init__` below the root standing for its directory |
| ImportTargets.RootPackage | internal/callgraph/python.go:72-84 | a root file is its own package exactly when it is `__init__.py` or, scanned from the current directory, when its name ends in `__init__` |
| ImportTargets.PackageIsDirectory | internal/callgraph/python.go:72-84 | under any scan root the package is the directory of the file exactly when no dot in a directory or in the file name says otherwise and no root file counts as its own package; a dot that leads the only dotted name does no harm |
| ImportTargets.RelativeModuleNames | internal/callgraph/python.go:86-150 | for any file under any scan root: a relative import within the project, with or without a dotted rest, names the module it points at from the file, be that a file or a package, exactly when the climb from the package reaches that directory; it names nothing exactly when it climbs past the package, or to the root without a rest |
| ImportTargets.NothingPastRoot | internal/callgraph/python.go:125-150 | from a file without dots in its path every climb past the root names nothing |
| PythonCalls.ImportedCallRecorded | internal/callgraph/python.go:271-301 | a later call through a name that an import binds, plain, `from`, or by alias, and that is not bound again in between, is recorded in the built graph under the name below what was imported, wherever in the build the file stands |
| PythonCalls.LocalCallRecorded | internal/callgraph/python.go:387-405 | a call through a name that no import of its file binds is recorded under its own module, whatever other files import |
| PythonCalls.LocalCallEdge | internal/engine/engine.go:529-554 | such a call of a function of the same file is an edge of the callee map to it |
| PythonCalls.ImportedCallEdge | internal/engine/engine.go:529-554 | when some file of the build defines a function under the resolved name, the call is an edge of the callee map to it |
| PythonCalls.RelativeImportEdge | internal/callgraph/python.go:86-150 | the same for a relative import from an anchored file: an edge to the function of the file that the import points at |
| RelativeImports.ResolveTSImportSource | internal/callgraph/typescript.go:91-123 | the loop pushes and pops segments as the segment-wise definition says |
| ImportTargets.ModuleOfPath | internal/callgraph/typescript.go:33-46 | the module name of any file is its path with dots and without extensions, an index file below the root standing for its directory |
| ImportTargets.PackageOfPath | internal/callgraph/typescript.go:81-89 | the package is the directory of the file exactly when the file is no index below the root and its name without extension holds no dot, or at the root only a leading one |
| ImportTargets.RelativeSourceNamesModule | internal/callgraph/typescript.go:91-123 | for any importer and target, dots included, and any climb within the project: the source resolves to the target's module name when the climb from the package reaches the directory, no directory in the source ends in `.ts` or `.tsx`, and the last segment is the target's name and no index below the root; each of the three is necessary given the other two |
| ImportTargets.PastRootNamesRoot | internal/callgraph/typescript.go:182-186 | a source resolves to the module of that name at the root exactly when it climbs at least as far as the package has parts, and one that names a file never resolves to nothing |
| ImportTargets.WrittenExtension | internal/callgraph/typescript.go:107-120 | the last segment names the file exactly when it is written without extension or with `.ts` or `.tsx`, whichever of the four the file has |
| ImportTargets.DottedFileName | internal/callgraph/typescript.go:81-89 | in src/user.service.ts the source `./helper` misses src/helper.ts; the other way round it agrees |
| Framing.Writer.Send | internal/lsp/server.go:209-222 | appends one frame |
| Framing.Reader.ReadMessage | internal/lsp/server.go:224-257 | reads header lines up to a blank one, then as many bytes as announced, with every error case |
| Framing.FrameBytes | internal/lsp/server.go:214 | a frame is `Content-Length: `, the length of the body in decimal without leading zeros, two CR LF line ends, and the body |
| Framing.ReadsFrame | internal/lsp/server.go:209-257 | reading a frame gives back its body and leaves the rest of the stream |
| Framing.RoundTrip | internal/lsp/server.go:209-257 | any sequence of bodies is read back in order, then end of file |
| Framing.OtherHeadersSkipped | internal/lsp/server.go:228-245 | other header fields are skipped |
| Pipeline.RunPolicies | internal/cli/cli.go:335-346 | service map, then one analysis per policy on the resulting graph |
| Pipeline.RunPython | internal/cli/cli.go:319-346 | for every set of Python files the findings are exactly those the analysis describes, without further assumptions |
| Pipeline.RunGo | internal/cli/cli.go:319-346 | the same for Go files |
| Pipeline.ReportUnique | internal/cli/cli.go:319-346 | sources, service map and policies determine the report |
| Pipeline.IgnoresSuppress | internal/callgraph/graph.go:66-92 | a directive suppresses as it covers, and nothing else suppresses |
| Pipeline.DirectiveReach | internal/callgraph/graph.go:66-92 | what is suppressed is exactly the line of a directive and the line below, in its file, for the policies it names or, by `*`, for all |
| ParsedTrees.WalkFrom | internal/callgraph/python.go:152-187 | every call site of the Python walk carries its file and a node of that file's tree |
| ParsedTrees.GoFrom | internal/callgraph/golang.go:44-69 | the same for the two-phase Go build |
| ApplyRun.ReportPatchesFit | internal/engine/engine.go:304-346 | on unchanged files every patch of a report, module scope included, is in range and expects the line that the file holds |
| ApplyRun.AppliedOnDisk | internal/servicemap/servicemap.go:112-136 | synthetic sites can be patched like the sites they stem from |
| ApplyRun.NoneLostIff | internal/cli/cli.go:264-283 | every patch of a run takes effect exactly when the patches for the same line agree |
| LostPatches.CompetingPatches | internal/engine/engine.go:304-346 | two policies with one sink that wrap the same argument patch the same line, to the same text exactly when their first guard calls are the same |
| LostPatches.PatchIsLost | internal/cli/cli.go:177-196 | a file on disk, a graph and two policies for which every finding has a patch and two patches for one line differ |
| ApplyRun.CheckAndApply | internal/cli/cli.go:177-196 | the run succeeds exactly when every finding has a patch; in each file every targeted line becomes the new line of a patch for it, and the others stay |
| ApplyRun.CheckAndApplyPython | internal/cli/cli.go:177-196 | the same from the trees of Python files |
| ApplyRun.CheckAndApplyGo | internal/cli/cli.go:177-196 | the same from Go files |

## Left out

- Parsing: the tree-sitter grammars are foreign code. A syntax tree is a datatype, and that rows and columns agree with byte offsets is an assumption (`Located`).
- YAML decoding, policy validation and the language filter: a predicate has exactly one kind by its type, and the policies given are the applicable ones.
- Output formats and the text of fix suggestions: formatting. A finding's fix keeps its level and patch.
- MutualRecursionSameSites: does not compare the suggestion text, which can name the function.
- Command line, directory walking, file modes and write errors: the file system is a map of readable files.
- Recognising ignore comments: the directives are given as data; what they suppress is modelled.
- ApplyPatches: the printed total of applied patches is stated per file (`ReplayRewrites`), not summed.
- WellFormed: the solver is stated for graphs where neither the empty name nor `<module>` is a function and every site has a file. The Python build always gives one; the Go build does when function names are identifiers.
- BuildGo: a Go file is a list of declarations with function bodies as expression trees, each call with its syntax node; which child of a grammar node is the name, receiver, parameter list or result is not modelled, and functions are declared at the top of a file only.
- ModuleScopeOrderIff, GraphOrderIff: for files that are given once each and whose functions have non-empty names, as the loader and the grammar promise.
- RelativeModuleNames, RelativeSourceNamesModule: paths are below the project root and their segments are not empty; the dotted rest of a Python import has the non-empty segments that the grammar gives it.
- Framing: JSON bodies, locks and the allocation of the body buffer are left out; lengths fit a 64-bit int and white space is ASCII.
- The Java extractor and the TypeScript scope walk repeat the patterns modelled for Python and Go.
- Language-server dispatch, diagnostics and URI handling: bound to libraries.
