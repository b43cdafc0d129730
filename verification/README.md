# Yoe, verified

A Dafny model of the hard parts of Yoe, an embedded-Linux build system: its dependency
resolver, its byte-level package formats, and its small concurrent protocols. The main
results hold for every input, every run or every interleaving.

Where the Go code works by changing things step by step, the model is a method or a class
proved against a specification function, and what the code promises is proved about that
function. Concurrent protocols are state machines over their atomic steps.

| component | files |
|---|---|
| names, sorted listings, reachability and cycles on finite graphs | `Names.dfy`, `Graph.dfy` |
| the build graph: edges and reverse edges, Kahn's sort, walks | `Dag.dfy`, `DagWalk.dfy` |
| cycle detection, cycle-tolerant wave order | `Cycle.dfy`, `Waves.dfy`, `TopoOrder.dfy` |
| catalogs, lazy lookup through feeds, image closure | `Catalog.dfy`, `Lookup.dfy`, `Closure.dfy` |
| per-distro views and virtual names, runtime closure | `Views.dfy`, `Runtime.dfy` |
| registration, and how engine and project come to agree | `Register.dfy`, `Agreement.dfy`, `Loading.dfy`, `Mixed.dfy` |
| content keys | `Merkle.dfy`, `KeyRecords.dfy`, `HashInputs.dfy`, `Hash.dfy` |
| version order and provides table | `Decimal.dfy`, `Versions.dfy`, `Provides.dfy` |
| gzip members and the repacking of packages | `Bytes.dfy`, `Gzip.dfy`, `Members.dfy` |
| APKINDEX and PKGINFO text | `Base64.dfy`, `ApkIndex.dfy`, `ApkBlocks.dfy`, `ApkRoundTrip.dfy`, `Pkginfo.dfy`, `PackageInfo.dfy` |
| the shared git cache, the serial session | `Fetch.dfy`, `Session.dfy` |
| stream machines | `ConsoleLog.dfy`, `Marker.dfy` |

`dafny verify dfyconfig.toml` verifies the whole project.

## Assumptions

- Names, versions and index text are sequences of ASCII characters; other text is bytes.
- The order in which Go walks a map is modelled as an arbitrary choice.
- Deflate is a parameter: a function that says how many bytes of the data a compressed body
  takes. What is proved about members needs it to be self-delimiting (`Gzip.SelfDelimiting`:
  it depends only on the bytes it consumes). The test for a signature member and the signer are
  parameters too.
- sha256 is a parameter on the sequence of records written; only what equal keys mean and
  `MerkleMeansFirst` need it injective. sha1 digests are given 20-byte values.
- A feed answers a name always alike, with a unit of that name tagged with the feed's distro.
  Feed names are distinct. Modules that register units have distinct priorities; feeds need not
  (while images are evaluated all of theirs are 0), and where units tie the choice is left open.
- In the image phase the provides aliases are a fixed table per distro, and the target of an
  alias is not itself aliased.
- `RuntimeClosure` is stated of projects that have views, or none and no ties: before there are
  views a lookup does not look at distros.
- `gitHasRef` tells the truth; the file lock is exclusive and is released when its holder dies.

## Where the code and its documentation differ, and properties that hold only on a condition

The model follows the code.

- `DepsOf` is documented as not including the unit itself. It does, exactly when the unit lies
  on a cycle (its contract; `SelfDepListed` is such a graph).
- The memoised lookup refines the stateless rule for every distro, in every run. With the empty
  distro, which the function accepts and no caller passes, the answer depends on history
  (`DistrolessLookupIsStateful`): it agrees with the rule exactly when the name was catalogued
  from the start, has not been fed yet, or was fed by the first feed that knows it
  (`DistrolessAgreesIff`).
- The engine and the loaded project resolve names by different rules: the engine takes the flat
  catalog's unit where it is visible, the project the visible unit of greatest priority. They
  agree on a name looked up exactly when a pin decides it or the flat unit is one of greatest
  priority (`AnswersAgreeIff`). A name whose registrations come in the order of one loading phase,
  the project's first and then the modules' by ascending index, always meets that
  (`LoaderOrderTop`), and if all names do the two runtime closures agree (`LoadedClosuresAgree`).
  A name registered over two of the loader's three phases need not (`OrderCanSplit`).
- Image evaluation mixes lookups with registrations. Every lookup then answers by the rule on the
  registrations so far as long as no unit is registered while a feed's unit of another distro holds
  the flat slot of its name (`MixedRefines`). After one that does, a further one, of the priority
  just below, parts the answers; after one that does not, none can (`GuardIff`; `GuardCanFail` is a
  run that leaves such a slot).
- A frozen view stays right under late additions of names it lacks. Adding a name it holds
  makes it stale exactly when the newcomer is visible, no pin is met without it, and it is the
  pinned one or outranks the unit held (`ViewGoesStaleIff`, `ViewCanGoStale`).
- `ResolveProvidesForDistro` is documented to filter its global fallback by distro; it does not
  (`CrossDistroProvider`). Its answer is a unit the distro can see, or none, exactly when the view
  or the index answers, or the global table has no entry or one the distro can see
  (`ProviderVisibleIff`).
- Whether registrations of equal priority are refused depends on their order: priorities 2, 1, 1
  are accepted, 1, 1, 2 are not (`TieDependsOnOrder`). A run is refused exactly when some
  registration ties with the best before it (`RefusedIffTie`). Likewise the per-module catalog
  keeps a module's unit exactly when nothing better was registered before it
  (`FiledIffRunningBest`, `FiledDependsOnOrder`).
- `UnitHash` is documented to change with any change to a unit. It does, exactly for the fields
  named at `SameRecordsIff`, as long as no name in a joined list is empty or holds the separator,
  no environment value has an equals sign behind a comma, and every step is one command that is
  not empty, one function or one install step. The functions that build steps make no others but
  empty commands, which leave no trace (`EmptyCommandUnseen`); a comma inside a name looks like two
  names (`CommaUnseen`).
- `UnitHash` is documented to change with any dependency. It does not see the provider behind a
  virtual dep, nor the keys of an image's artifacts (`KeyIgnoresUndeclared`). The keys are the recursive Merkle
  keys exactly when the build order has declared deps first (`AlongIsMerkle`, `MerkleMeansFirst`),
  which it does where declared deps resolve to themselves (`DepsKeyedFirst`) and need not where
  one is rerouted to another provider (`RerouteBreaksMerkle`).
- `ParseIndex` is documented to drop blocks without a `P:` line. It rejects the whole index
  (`NamelessWitness`), exactly when such a block with a field is its first fault
  (`NamelessBlockFailsIff`).
- A line of an index survives the scanner exactly when it holds no line feed and does not end in
  a carriage return (`LineSurvivesIff`, `CarriageReturnLost`); a line of 1 MiB or more is an error.
- An underscore suffix makes a version older, `_p1` and `_hotfix` included, exactly when the
  version carries no release counter; behind one it makes it newer (`UnderscoreIsOlderIff`,
  `UnderscoreBehindRelease`). A release is read right exactly when it fits 64 bits
  (`AccumulateExactIff`).
- `splitPkgver` inverts the version stamp exactly when the release is not negative
  (`StampInvertsIff`, `NegativeStamp`).
- CR LF ends exactly one line only if a CR has not just ended one (`CrlfEndsOneLineIff`,
  `CrThenCrlf`); an idle
  flush between a line and its CR LF costs a blank line (`IdleSplitsCrlf`).
- The log is documented to have escape sequences removed. That holds of a stream exactly when it
  has no escape sequence with intermediate bytes and no device control, start, privacy or
  application string with text in it (`EscapesRemovedIff`): ESC ( B leaves its last byte
  (`CharsetSelectionLeaks`), a device control string all of its text (`DeviceStringLeaks`).

## Model

| member | source | states |
|---|---|---|
| `Dag.Link` | internal/resolve/dag.go:135-154 | on success every node's deps are its known deps in order and the reverse lists hold each dependent as often as it declares the dep, sorted; without leave to drop, the deps stay as declared, or it fails naming a declared dep that is not a node |
| `Dag.LinkedReverse` | internal/resolve/dag.go:135-154 | the reverse lists are the reverse relation of the dep lists |
| `Dag.Kahn` | internal/resolve/dag.go:267-315 | the answer is the lexicographically least of all topological orders, or the sorted, nonempty list of exactly the nodes from which a cycle is reachable |
| `Dag.SortSucceedsIffAcyclic` | internal/resolve/dag.go:267-315 | a correct answer is an order exactly when the graph is acyclic |
| `Dag.SortUnique` | internal/resolve/dag.go:256-265 | a graph has one correct answer, so memoising cannot change it |
| `Dag.GreedyIsLeast` | internal/resolve/dag.go:267-315 | taking the least ready node at each turn gives the lexicographically least topological order |
| `Dag.StuckReachCycles` | internal/resolve/dag.go:267-315 | when the queue runs dry the nodes with a positive count are those not listed, and those are the nodes that lead to a cycle |
| `Names.LessMeans` | internal/resolve/dag.go:282 | the order all listings are sorted by: a proper prefix comes first, else the first difference decides |
| `Dag.DAG.TopologicalSort` | internal/resolve/dag.go:256-265 | every call, first or later, returns the one correct answer |
| `DagWalk.DepsOf` | internal/resolve/dag.go:317-341 | unknown name reported; otherwise exactly the nodes reachable over one or more deps, sorted, once each; the unit itself is listed exactly when it lies on a cycle |
| `DagWalk.SelfDepListed` | internal/resolve/dag.go:317-341 | two units that depend on each other are among their own deps |
| `DagWalk.RdepsOf` | internal/resolve/dag.go:371-395 | the same over reverse deps |
| `DagWalk.DepsRdepsDual` | internal/resolve/dag.go:317-395 | x is in DepsOf(y) exactly when y is in RdepsOf(x) |
| `DagWalk.TransitiveDeps` | internal/resolve/dag.go:343-369 | the same set as DepsOf without repeats; on acyclic graphs each unit comes after all its own deps |
| `Cycle.DetectCycles` | internal/starlark/cycle.go:21-79 | nil exactly when the graph restricted to its keys is acyclic; otherwise the path is a simple closed walk along edges with equal ends |
| `Cycle.CloseCycle` | internal/starlark/cycle.go:37-50 | slicing the stack at a node met again and closing it gives a simple cycle |
| `TopoOrder.TopoOrder` | internal/starlark/closure.go:136-197 | the result is the wave ordering of the edges between distinct units of the closure |
| `Waves.OrderingIsPermutation` | internal/starlark/closure.go:136-197 | for every input, cyclic or not, the ordering lists each unit once |
| `Waves.OrderingDepsBefore` | internal/starlark/closure.go:136-197 | a unit that leads to no cycle comes after all its deps, whatever cycles there are elsewhere |
| `Waves.WaveIsLongestChain` | internal/starlark/closure.go:158-180 | a unit is in wave k exactly when its longest chain of deps has k edges |
| `Waves.TailReachesCycle` | internal/starlark/closure.go:181-197 | the units left for the sorted tail are exactly those that lead to a cycle |
| `Waves.OrderingTopological` | internal/starlark/closure.go:136-197 | on an acyclic closure the ordering is topological |
| `Catalogs.FindVisible` | internal/starlark/closure.go:330-345 | the scan, in any module order, finds some unit that is untagged or tagged for the distro and has the greatest priority of those, the one if no two tie, or none if there is none |
| `Lookup.Engine.LookupOrMaterialize` | internal/starlark/closure.go:245-324 | told from the pin, alias, feed and catalog tables themselves: an aliased name is looked up as its target, any other as itself; a pinned module or feed that has a visible unit decides, else the flat unit if visible, else behind an invisible one a visible unit of greatest priority, else the first feed that knows the name, or breaks on it; for a distro the answer is also the one on the initial catalog, whatever was looked up before; nothing is lost or replaced in the catalogs, what is new is the unit found, and it is filed; looking the name up again would change nothing, then or later |
| `Lookup.Engine.LookupInModule` | internal/starlark/closure.go:352-384 | a feed of that name is asked, else the per-module catalog; only a feed's visible unit is stored |
| `Lookup.Engine.WalkFeeds` | internal/starlark/closure.go:287-323 | the answer is that of the first feed that has a visible unit or fails |
| `Lookup.LookupRefinesRule` | internal/starlark/closure.go:245-324 | over every run of lookups, interleaved across distros and with lookups for none, each answer for a distro is that of pin, then catalog, then first matching feed on the initial catalog |
| `Lookup.RuleKept` | internal/starlark/closure.go:245-324 | feed units materialised on the way never change what the rule answers for a distro |
| `Lookup.RuleFollows` | internal/starlark/closure.go:245-324 | the rule picks what pin table, catalogs and feeds say, in that order |
| `Lookup.DistrolessLookupIsStateful` | internal/starlark/closure.go:398-412 | a run in which a lookup without a distro depends on an earlier one |
| `Lookup.DistrolessAgreesIff` | internal/starlark/closure.go:398-412 | in any run, the exact condition under which a lookup without a distro still meets the rule on the initial catalog |
| `Closure.Closure` | internal/starlark/closure.go:78-121 | terminates on every graph; succeeds exactly when every needed name resolves, and then yields, once each and in wave order, the least set of units that the roots resolve into and that holds, with each unit, what its runtime deps and those it adds for the distro resolve to, each unit under its own name and visible to the distro; otherwise names a needed name that does not resolve, or a failing feed |
| `Closure.ClosureUnique` | internal/starlark/closure.go:78-121 | roots and lookup determine the closure |
| `Closure.ClosureIsLeast` | internal/starlark/types.go:892-907 | a closure is closed under the units' own runtime deps and those they add for the distro, and every such set that covers the roots holds it |
| `Closure.OtherDistrosIgnored` | internal/starlark/types.go:892-907 | what units add for other distros changes no closure |
| `Closure.ClosureVisible` | internal/starlark/closure.go:78-121 | every unit of an engine's closure is the one its own name resolves to, and is visible to the distro |
| `Closure.RuleHit` | internal/starlark/closure.go:245-324 | a hit bears the resolved name and is visible to the distro |
| `Runtime.RuntimeClosure` | internal/resolve/runtime.go:33-77 | under some lookup the project may perform, which asks for an alias's target and for any other name itself, and is the only one where no tie matters: the least set, once each, that holds the routed names of the roots and, with each unit, of its runtime deps and those it adds for the distro, as far as they have a visible unit; a missing name is skipped, with its deps |
| `Runtime.IncludedIsLeast` | internal/resolve/runtime.go:33-77 | what is needed and has a unit is the least set closed in that way |
| `Runtime.HitOrNot` | internal/resolve/runtime.go:40-55 | once there are views, a tie decides which unit is found, but never whether one is |
| `Agreement.AnswersAgreeIff` | internal/starlark/closure.go:245-324 | a name the engine has looked up resolves to the same unit in the loaded project exactly when a pin decides it or the flat catalog hides no better unit |
| `Agreement.GrownUnambiguous` | internal/starlark/closure.go:245-324 | lookups never make two visible units tie for a name no pin decides |
| `Agreement.ClosureLooksAgreeIff` | internal/resolve/runtime.go:33-77 | after a successful closure both lookups find the same unit for every needed name exactly when each needed name meets that condition |
| `Agreement.ClosuresAgree` | internal/resolve/runtime.go:33-77 | then RuntimeClosure over fresh views lists exactly the units of the engine's closure |
| `Loading.RegisteredWellFormed` | internal/starlark/builtins.go:869-924 | an accepted run of registrations leaves catalogs the lookups can start from |
| `Loading.LoaderOrderTop` | internal/starlark/loader.go:135-147 | for a name registered in the order of one phase, project first and then modules by ascending index, the flat catalog never hides a better unit from a distro |
| `Loading.LoadedNamesAgree` | internal/starlark/types.go:340-374 | so such a name, once looked up, resolves alike for the engine and for the project |
| `Loading.LoadedClosuresAgree` | internal/resolve/runtime.go:33-77 | and where all registered names are such, the two runtime closures are the same |
| `Loading.OrderCanSplit` | internal/starlark/loader.go:472-566 | three registrations in the loader's order over two phases, after which the two resolve a name differently |
| `Mixed.MixedRefines` | internal/starlark/closure.go:245-324 | over every run that mixes registrations and lookups, if no registration meets a flat slot that a feed's unit holds across distros, none is refused on account of the lookups and every lookup for a distro answers by the rule on the registrations so far |
| `Mixed.MixedFollows` | internal/starlark/builtins.go:869-924 | in such a run the catalogs are those of the registrations alone plus feed units |
| `Mixed.GuardNeeded` | internal/starlark/builtins.go:869-924 | after a registration across a held slot an untagged unit of lower priority takes the slot, and the distro of the first gets the wrong unit |
| `Mixed.GuardIff` | internal/starlark/builtins.go:869-924 | no further registration of the name can part the answers exactly when the registration did not meet a slot held across distros |
| `Mixed.GuardCanFail` | internal/starlark/closure.go:287-323 | one lookup leaves a slot that is held across distros |
| `Views.RuleChoosesWell` | internal/starlark/loader.go:903-948 | a name resolves exactly when some module has a visible unit; the unit is one of the catalog's and visible, is the pinned one when the pin can be met, and otherwise has the greatest priority |
| `Views.Project.ResolveForDistro` | internal/starlark/loader.go:907-933 | the unit of the module pinned for the name if the distro sees it, else one of greatest priority among those it sees, ties or not |
| `Views.Project.BuildView` | internal/starlark/loader.go:846-854 | a view holds exactly the names some visible unit has, each with a unit the rule allows |
| `Views.Project.BuildDistroViews` | internal/starlark/loader.go:820-857 | there is such a view for the default distro and its override, for every distro with pins and every distro some unit is tagged for, and for no other |
| `Views.Project.LookupUnit` | internal/starlark/types.go:360-374 | the view's unit first, then the rule on the live catalog; unknown distros have nothing once views exist; before that, any unit of greatest priority |
| `Views.FreshViewsDetermine` | internal/starlark/loader.go:820-857 | fresh views settle every tie, so a lookup for their distro has one answer |
| `Views.Project.AnyUnit` | internal/starlark/types.go:385-400 | some unit of greatest priority whatever its distro, the one if no two tie |
| `Views.Project.Materialize` | internal/starlark/types.go:340-374 | a late unit is filed and every other slot keeps its unit; lookups through a frozen view that lacks the name stay right, and for a name it holds they stay right exactly if the newcomer would not displace its unit |
| `Views.FrozenViewAgrees` | internal/starlark/types.go:340-374 | after any late additions of names the view lacks, a lookup's answer is one the rule allows on the live catalog |
| `Views.ViewGoesStaleIff` | internal/starlark/types.go:340-374 | after a late addition of a name the view holds, the unit held is one the rule allows exactly when the newcomer would not displace it |
| `Views.ViewCanGoStale` | internal/starlark/types.go:340-374 | a view and a late unit that makes it wrong |
| `Views.Project.BuildProvidesViews` | internal/starlark/loader.go:874-900 | the index has, for every distro and virtual name some unit tagged for it offers, one such unit, and nothing else |
| `Views.Project.ResolveProvidesForDistro` | internal/starlark/types.go:437-479 | a unit of that name tagged for the distro, else the index or the scan that stands in for it, else the global table |
| `Views.ProviderVisibleIff` | internal/starlark/types.go:423-479 | the answer is a unit the distro can see, or none, exactly when view or index answers, or the global table has no entry or one the distro can see |
| `Views.CrossDistroProvider` | internal/starlark/types.go:475-479 | a project in which a distro is handed a provider it cannot see |
| `Register.Engine.RegisterUnit` | internal/starlark/builtins.go:869-924 | a new name is catalogued; a unit tagged for another distro than the one standing is only filed under its module; a tie is refused and changes nothing; a lesser unit leaves the catalogs alone and a greater one takes the slot, each with a shadow event that names winner and loser; the unit now standing is returned |
| `Register.RunSettles` | internal/starlark/builtins.go:869-924 | over every accepted run without cross-distro pairs, the flat catalog holds the highest-priority registration of each name, the per-module catalog has it under its own module, and the losers of the shadow events together with it are exactly the registrations |
| `Register.RefusedIffTie` | internal/starlark/builtins.go:880-905 | a run is refused exactly when some registration ties with the best of its name before it |
| `Register.TieDependsOnOrder` | internal/starlark/builtins.go:880-905 | of three modules with a name, two of equal priority, one order is accepted and another refused |
| `Register.WinnerIgnoresOrder` | internal/starlark/builtins.go:869-924 | with distinct priorities nothing is refused and any order of the same registrations has the same winner |
| `Register.FiledIffRunningBest` | internal/starlark/builtins.go:869-924 | a module's unit is in the per-module catalog exactly when no registration before it was better |
| `Register.FiledDependsOnOrder` | internal/starlark/builtins.go:869-924 | a module's unit is filed if registered before a better one, and not if registered after it |
| `Hash.UnitHash` | internal/resolve/hash.go:47-205 | the key is the digest of the unit's record list; with an injective digest another unit, with its own settings, gets the same key exactly when it agrees on every field the key covers |
| `HashInputs.SameRecordsIff` | internal/resolve/hash.go:47-205 | two units write the same records exactly when they agree on arch, source state, distro, name, version, release, class, scope, description, license, source and sums, tag, branch, patches, every task with its container, distros and steps, container, sandbox, shell, provided, replaced and runtime names, services, conffiles, environment, extras and files, on what they add for the distro, on how often they declare each dep that has a key and on that key, and for images on artifacts up to order, exclusions, host name, time zone, locale and partitions |
| `HashInputs.EmptyCommandUnseen` | internal/resolve/hash.go:113-116 | an empty command leaves no trace in the records |
| `HashInputs.CommaUnseen` | internal/resolve/hash.go:139 | a name with a comma in it is recorded as two names are |
| `Hash.SameKeySameInputs` | internal/resolve/hash.go:47-244 | if a unit has the same key in two projects, it and every declared transitive dep agree on all those fields in both |
| `Hash.MachineTells` | internal/resolve/hash.go:229-234 | the machine enters the records of machine-scoped units and of no others |
| `Hash.ComputeAllHashes` | internal/resolve/hash.go:207-244 | fails exactly on cyclic graphs; otherwise keys the units along the graph's order; with an injective digest the keys solve the recursive Merkle equations exactly when that order has declared deps first |
| `Hash.SelfResolvingIsMerkle` | internal/resolve/hash.go:207-244 | where declared deps resolve to themselves the keys are the Merkle keys |
| `Merkle.DepsKeyedFirst` | internal/resolve/hash.go:221-244 | where declared deps resolve to themselves, every one that is a node has its key before its dependent is hashed |
| `Merkle.RecordsStay` | internal/resolve/hash.go:221-244 | with declared deps first, a node's records say the same in the end as when it was keyed |
| `Merkle.AlongIsMerkle` | internal/resolve/hash.go:221-244 | then the keys solve the recursive definition |
| `Merkle.MerkleMeansFirst` | internal/resolve/hash.go:221-244 | with an injective digest, only then |
| `Merkle.LateDepBreaks` | internal/resolve/hash.go:221-244 | one declared dep that is a node and is hashed later is enough |
| `Hash.RerouteBreaksMerkle` | internal/resolve/dag.go:164-178 | three units, an edge rerouted to a provider, and a correct build order along which the keys are not the Merkle keys |
| `Merkle.MerkleUnique` | internal/resolve/hash.go:207-244 | where some order has declared deps first the recursive definition has one solution |
| `Merkle.EqualKeysEqualRecords` | internal/resolve/hash.go:47-244 | with an injective digest, equal keys in two graphs mean equal records for the node and for each of its declared transitive deps |
| `Hash.NeutralKeys` | internal/resolve/hash.go:47-205 | along one order, other mirrors, distro tags or deps for other distros, on any units, change no key |
| `Hash.KeyIgnoresUndeclared` | internal/resolve/hash.go:176-190 | the key of a unit not declared by that name does not enter the records |
| `Hash.DepInRecords` | internal/resolve/hash.go:47-205 | the records mention a dep and key exactly when the unit declares it, or adds it for the distro, and it has that key |
| `Versions.VersionsAntisymmetric` | internal/apkindex/provides.go:93-103 | every two versions compare, and swapping them flips the sign |
| `Versions.VersionsTransitive` | internal/apkindex/provides.go:93-148 | the comparison is transitive, strictly so where either step is strict |
| `Versions.EndRanksBetween` | internal/apkindex/provides.go:127-148 | further segments make a version older if the first is a prerelease marker, and newer otherwise |
| `Versions.NumericByValue` | internal/apkindex/provides.go:218-228 | digit segments of any width compare by value, leading zeros or not |
| `Versions.FirstNumberDecides` | internal/apkindex/provides.go:93-228 | the first dot-separated component whose number differs decides by value, whatever follows |
| `Versions.LetterDecides` | internal/apkindex/provides.go:127-216 | of two letters behind the same number the later one is newer |
| `Versions.LetterIsNewer` | internal/apkindex/provides.go:127-148 | and a letter is newer than none |
| `Versions.ReleaseDecides` | internal/apkindex/provides.go:93-121 | of two builds of one version the one with the greater release number is newer |
| `Versions.TenBeatsTwo` | internal/apkindex/provides.go:93-121 | "1.0-r10" is newer than "1.0-r2" |
| `Versions.NoCounterIsZero` | internal/apkindex/provides.go:105-121 | a version without a release counter ranks as release 0 |
| `Versions.ProperDecides` | internal/apkindex/provides.go:93-103 | the release counter has no say between different versions proper |
| `Versions.CountedIff` | internal/apkindex/provides.go:105-121 | a release is split off exactly when the version ends in "-r" and digits |
| `Versions.UnderscoreIsOlderIff` | internal/apkindex/provides.go:93-216 | an underscore suffix makes a version older exactly when the version does not end in "-r" and digits, and newer otherwise |
| `Versions.UnderscoreBelowComponent` | internal/apkindex/provides.go:93-216 | an underscore suffix is older than any further numeric component |
| `Versions.UnderscoreOlderStamped` | internal/apkindex/provides.go:93-216 | in front of the release counter the suffix makes the version older, whatever the releases |
| `Versions.UnderscoreBehindRelease` | internal/apkindex/provides.go:93-121 | "1-r2_x" is newer than "1-r2" |
| `Decimals.AccumulateExactIff` | internal/apkindex/provides.go:107-121 | a release is read right exactly when it fits 64 bits |
| `Decimals.DigitTable` | internal/apkindex/provides.go:115-121 | the digits are 0 to 9 with their values, and a number is printed by them, the last one for its remainder by ten |
| `Versions.SplitSegmented` | internal/apkindex/provides.go:150-188 | every segment is nonempty, and all digits or free of digits |
| `Versions.SplitKeepsText` | internal/apkindex/provides.go:150-188 | splitting loses nothing but separators |
| `Versions.ComparePkgver` | internal/apkindex/provides.go:127-148 | the loop computes the recursive segment order |
| `Versions.SplitVerSegments` | internal/apkindex/provides.go:150-188 | the loop computes the segments |
| `Versions.SplitRelease` | internal/apkindex/provides.go:107-121 | the loop splits off the release after the last "-r" |
| `Versions.SplitPkgver` | internal/apkindex/materialize.go:168-188 | the same split as the comparison's, computed digit by digit |
| `Versions.StampInvertsIff` | internal/artifact/apk.go:480 | splitting a version stamp gives both halves back, for every version text, exactly when the release is not negative |
| `Versions.NegativeStamp` | internal/artifact/apk.go:480 | a stamp with release -1 does not come back |
| `Provides.BuildProvidesTable` | internal/apkindex/provides.go:51-81 | the table has exactly the names that entries bear or offer, alone or in front of an equals sign; for each it holds the first entry, in index order, among those of maximal version, and so never one of which another entry is a newer build or has the greater number in the first component that differs |
| `Provides.NewerKept` | internal/apkindex/provides.go:51-103 | of two entries that bear a name the older build, or the one with the smaller first differing number, is not in the table |
| `Provides.TableNames` | internal/apkindex/provides.go:51-91 | a name is in the table exactly when some entry bears it |
| `Provides.TableUnique` | internal/apkindex/provides.go:51-81 | only one table meets that |
| `Provides.NewestStep` | internal/apkindex/provides.go:51-81 | replacing only on a strictly newer version keeps the first of the maximal versions |
| `Gzip.Boundaries` | internal/gzipframe/gzipframe.go:46-102 | every read is in range; the bounds are contiguous from offset 0 and within the data |
| `Gzip.Streams` | internal/gzipframe/gzipframe.go:109-127 | the streams are the cut of the data at the bounds, or an error if bytes remain |
| `Gzip.Stream` | internal/gzipframe/gzipframe.go:133-142 | the n-th stream, whether or not bytes trail the last one, or how many there are |
| `Gzip.SplitJoins` | internal/gzipframe/gzipframe.go:109-127 | the streams end to end are the whole data |
| `Gzip.HeaderWithOne` | internal/gzipframe/gzipframe.go:56-81 | where a header ends that has one of the optional fields, by its flag bit |
| `Gzip.HeaderWithAll` | internal/gzipframe/gzipframe.go:56-81 | and with all of them, in their order |
| `Members.SplitIff` | internal/gzipframe/gzipframe.go:46-127 | a list is the answer exactly when it is a list of members whose concatenation is the data: there is one way to write data as members |
| `Members.EncodedIsMember` | internal/gzipframe/gzipframe.go:56-100 | a member as section 2.3 of RFC 1952 lays it out, with any mix of FEXTRA, FNAME, FCOMMENT and FHCRC, is taken as one member |
| `Members.SplitOfEncoded` | internal/gzipframe/gzipframe.go:46-127 | splitting the concatenation of any list of well-formed members returns exactly that list |
| `Members.RepackAPK` | internal/artifact/apk.go:138-192 | the stream surgery: too few streams are refused, a signature in front is dropped, the new signature, control and data are written |
| `Members.RepackRound` | internal/artifact/apk.go:153-191 | one round keeps control and data byte for byte behind one new signature, and leaves a file another round accepts |
| `Members.RepackUnsigned` | internal/artifact/apk.go:138-192 | without a signature all members stay behind the new one; a control member alone is refused |
| `Members.RepackSigned` | internal/artifact/apk.go:138-192 | a leading signature is replaced; nothing but it and a control member is refused |
| `Members.RepackRounds` | internal/artifact/apk.go:153-191 | after any number of rounds the file is the last signature followed by the original control and data |
| `Base64.RoundTrip` | internal/apkindex/parse.go:246-259 | standard base64 with padding (section 4 of RFC 4648) decodes to the bytes encoded, for every length |
| `Base64.Alphabet` | internal/apkindex/parse.go:250 | the symbols are those of table 1 of RFC 4648, each read as its place in it |
| `Base64.DecodesIff` | internal/apkindex/parse.go:250 | a text decodes exactly when it is groups of four characters of that table, the last padded or not |
| `Base64.DecodedBits` | internal/apkindex/parse.go:250 | and then to the six-bit places of its characters in the table, in order |
| `Base64.EncodedBits` | internal/repo/index.go:244 | the encoder writes the places of the bytes' bits |
| `Base64.BreakSkipped` | internal/apkindex/parse.go:250 | a line break in the text makes no difference |
| `ApkIndex.DecodeEncoded` | internal/apkindex/parse.go:246-259 | the checksum field of any 20-byte digest decodes to it |
| `ApkIndex.ChecksumIff` | internal/apkindex/parse.go:246-259 | a checksum field decodes exactly when it is Q1 and 28 characters of base64, one of them padding |
| `ApkIndex.PlusSignDecodes` | internal/apkindex/parse.go:246-259 | a checksum whose base64 begins with a plus sign has 0xf8 for its first byte |
| `ApkIndex.EmitIndex` | internal/repo/index.go:69-140 | the builder's text is the packages' blocks, a blank line between each two |
| `ApkIndex.BlockText` | internal/repo/index.go:106-136 | a package's block, line by line with its key letters |
| `ApkIndex.JoinedByBlanks` | internal/repo/index.go:99-101 | lists are joined by single blanks |
| `ApkIndex.ParseIndex` | internal/apkindex/parse.go:62-129 | the scanner loop computes the fold over lines, with its errors |
| `ApkBlocks.ParsedEntries` | internal/apkindex/parse.go:62-226 | a readable index gives one entry per block with a field, in order, whose fields are what the last line of each key letter says |
| `ApkRoundTrip.ParseOfEmitted` | internal/apkindex/parse.go:62-226 | parsing the emitted text of any list of packages gives one entry per package, in order, with equal fields and token lists |
| `ApkIndex.FieldsOfJoin` | internal/apkindex/parse.go:230-236 | splitting a joined list of tokens gives the list |
| `ApkIndex.SplitsAtBlanks` | internal/apkindex/parse.go:230-236 | white space separates tokens wherever it stands, and nothing else does |
| `ApkIndex.ParseShown` | internal/apkindex/parse.go:190-211 | a number in decimal is read exactly when it fits 64 bits |
| `ApkIndex.ParseSpellings` | internal/apkindex/parse.go:190-211 | a plus sign or zeros in front of it make no difference |
| `ApkIndex.LineSurvivesIff` | internal/apkindex/parse.go:62-80 | a line reads back as written exactly when it has no line feed and no final carriage return |
| `ApkIndex.CarriageReturnLost` | internal/apkindex/parse.go:62-80 | a final carriage return is lost |
| `ApkBlocks.NamelessBlockFailsIff` | internal/apkindex/parse.go:62-129 | an index is refused for a missing name exactly when, before any other fault, some blank-line block holds a field and its last P: line is missing or empty |
| `ApkBlocks.ParsesIff` | internal/apkindex/parse.go:62-129 | an index is read exactly when no line is too long or holds a bad number, and every block with a field has a name and a checksum that decodes |
| `ApkBlocks.BlockIsMaximal` | internal/apkindex/parse.go:100-117 | a block is a maximal run of lines that are not blank |
| `ApkBlocks.NamelessWitness` | internal/apkindex/parse.go:56-62 | a one-line index with a version and no name is refused |
| `Pkginfo.ExtractPkginfo` | internal/repo/index.go:343-351 | the table holds exactly the keys that occur, each with its values in order |
| `Pkginfo.PairsRoundTrip` | internal/repo/index.go:343-351 | the pairs written come back in order, repeated keys included |
| `PackageInfo.GeneratePkginfo` | internal/artifact/apk.go:476-573 | the builder's text is the unit's fields in their order, empty optional ones left out, virtual names stamped with the unit's version |
| `PackageInfo.WrittenText` | internal/artifact/apk.go:476-563 | the text line by line, with its key words |
| `PackageInfo.FieldsBack` | internal/artifact/apk.go:476-573 | reading it back gives for every field exactly the unit's values, in order |
| `PackageInfo.PackageBack` | internal/repo/index.go:81-101 | the package GenerateIndex publishes has the unit's fields |
| `PackageInfo.UnitsSurvive` | internal/repo/index.go:69-140 | from the units' builds through the index to its readers: one entry per unit, in order, with the unit's name, stamped version, description, license, arch, commit, sizes, build time, digest and dependency lists, its virtual names and sonames stamped with the version where they have no operator of their own |
| `Fetch.OneAtATime` | internal/source/lock.go:30-54 | in every run, crashes included, at most one fetcher is past the lock |
| `Fetch.ReturnedPathHoldsRef` | internal/source/fetch.go:285-347 | from the moment a path is returned the entry holds the ref and stays the same clone |
| `Fetch.WholeEntryStays` | internal/source/fetch.go:285-347 | once the entry holds the ref no later step removes or replaces it |
| `Fetch.CleanupUnderLock` | internal/source/fetch.go:285-387 | a temporary directory disappears only at the hands of the lock's holder |
| `Fetch.NextInv` | internal/source/fetch.go:285-398 | every step of every fetcher keeps the protocol's invariant |
| `Fetch.Recovers` | internal/source/fetch.go:285-347 | whatever crashes left behind, a fetcher that finds the lock free can still return a whole entry |
| `Serial.EveryInterleaving` | internal/serial/session.go:315-517 | over every interleaving no channel is sent to after close or closed twice, mapped channels are open and mapped once, each subscriber is offered all that is fanned out since it subscribed, for as long as its channel is open, and gets an ordered selection of it, offered equals enqueued plus Dropped, and Clients counts the tracked connections |
| `Serial.NothingLostInTime` | internal/serial/session.go:117-122 | over every interleaving a subscriber that is never 256 chunks, or 1024 lines, behind has or gets all that was fanned out since it subscribed |
| `Serial.StepInv` | internal/serial/session.go:284-517 | every critical section keeps the session's invariant |
| `Serial.TotalOffers` | internal/serial/session.go:315-342 | a fan-out adds to the items lost exactly the number of full subscribers |
| `Serial.RunSafe` | internal/serial/session.go:315-517 | in every reachable state the channels a critical section may touch are open and distinct |
| `Serial.SendAll` | internal/serial/session.go:315-325 | the fan-out loop, in any order, offers the item once to each subscriber and counts those that are full |
| `Serial.ShutAll` | internal/serial/session.go:508-516 | the closing loop, in any order, closes each subscriber's channel once and empties the map |
| `Serial.Session.AddSubscriber` | internal/serial/session.go:356-398 | a fresh id and an empty channel, open and mapped unless the session is closed |
| `Serial.Session.CancelSubscriber` | internal/serial/session.go:367-397 | the subscriber's channel is closed and unmapped; an id that is not mapped changes nothing |
| `Serial.Session.FanoutRaw` | internal/serial/session.go:315-325 | each raw subscriber with fewer than 256 chunks waiting gets the chunk, the others lose it, and Dropped grows by their number |
| `Serial.Session.FanoutLine` | internal/serial/session.go:330-342 | each line subscriber with fewer than 1024 lines waiting gets the line without its line feed, the others lose it, and Dropped grows by their number |
| `Serial.Session.CloseSession` | internal/serial/session.go:493-517 | every mapped channel is closed and both maps are emptied; nothing happens the second time |
| `Serial.Session.AcceptConn` | internal/serial/session.go:428-439 | a connection subscribes before it is counted |
| `Serial.Session.CountConn` | internal/serial/session.go:437-441 | it is tracked and counted |
| `Serial.Session.HangUpConn` | internal/serial/session.go:447-457 | the exit cancels the connection's subscription first |
| `Serial.Session.LeaveConn` | internal/serial/session.go:449-456 | then it is untracked and uncounted |
| `ConsoleLog.NothingLost` | internal/serial/logwriter.go:58-191 | over every interleaving of writes, idle flushes, flushes and markers the line bodies plus the pending line are exactly the printable bytes outside escape sequences, in order, and every marker is logged |
| `ConsoleLog.ChunkingInvisible` | internal/serial/logwriter.go:58-130 | without flushes the log depends only on the bytes, not on how they were chunked |
| `ConsoleLog.CrlfEndsOneLineIff` | internal/serial/logwriter.go:72-130 | CR LF ends exactly the pending line exactly when a CR has not just ended one |
| `ConsoleLog.CrThenCrlf` | internal/serial/logwriter.go:72-130 | after a line ended by CR, an empty line ended by CR LF leaves no trace |
| `ConsoleLog.IdleSplitsCrlf` | internal/serial/logwriter.go:161-167 | an idle flush before a CR LF costs a blank line |
| `ConsoleLog.LinesRoundTrip` | internal/serial/logwriter.go:72-142 | lines of plain text, ended by LF or CR LF in any mix, are logged as those lines |
| `ConsoleLog.TextIsLeaves` | internal/serial/logwriter.go:72-130 | what each control sequence, control string (sections 5.4 and 5.6 of ECMA-48), escape sequence (ECMA-35) or single byte leaves in the log, and that a stream leaves just that |
| `ConsoleLog.EscapesRemovedIff` | internal/serial/logwriter.go:72-130 | exactly the printable single bytes remain if and only if no escape sequence has intermediate bytes and no DCS, SOS, PM or APC string has text |
| `ConsoleLog.CharsetSelectionLeaks` | internal/serial/logwriter.go:80-84 | ESC ( B leaves its final byte in the log |
| `ConsoleLog.DeviceStringLeaks` | internal/serial/logwriter.go:80-84 | a device control string leaves all of its text there |
| `ConsoleLog.LogWriter.Write` | internal/serial/logwriter.go:58-70 | a write is its step |
| `ConsoleLog.LogWriter.FeedByte` | internal/serial/logwriter.go:72-130 | which bytes are logged, which end a line, and which begin, continue or end an escape sequence, byte by byte |
| `ConsoleLog.LogWriter.IdleFire` | internal/serial/logwriter.go:161-167 | the timer flushes a pending line and nothing else |
| `ConsoleLog.LogWriter.FlushNow` | internal/serial/logwriter.go:169-177 | so does a flush |
| `ConsoleLog.LogWriter.WriteMarker` | internal/serial/logwriter.go:181-191 | a pending line is flushed first, then the marker is logged |
| `Marker.RunFindsMarker` | internal/device/boottest.go:67-81 | for every chunking the marker is reported exactly when it occurs in the bytes written, though only a bounded tail is kept |
| `Marker.RunMeans` | internal/device/boottest.go:67-81 | found exactly when the marker stands somewhere in all that was written; the tail kept is all of that or its last bytes, 256 more than the marker has |
| `Marker.MarkerScanner.Write` | internal/device/boottest.go:67-81 | the same of the object after any number of writes; the output is passed on unchanged, and the tail stays bounded |

## Left out

- SameRecordsIff: speaks of the records a unit writes, not of the text they are printed as; a line break in a value, or a colon in one of several, can make two lists of records one text.
- RunSettles: speaks of names without cross-distro pairs; for such a pair the flat catalog keeps whichever came first.
- LoaderOrderTop: speaks of names registered in the order of one phase, and by each module once; containers, units and images are three phases, and a name registered over several of them is covered by AnswersAgreeIff alone.
- MixedRefines: speaks of modules whose priorities are above every feed's, and that register a name once.
- ClosuresAgree: takes the routing of virtual names as given and alike on both sides for the needed names; the engine routes before the views exist, the project after.
- `Closure` and `RuntimeClosure` with an empty distro: the code panics.
- appendRuntimeClosureOfDeps, appendContainerDeps and resolveDeps of the build graph, resolveRuntimeDeps and filterProvides, and the merging of the global provides table: the model starts from resolved edges and from that table.
- The build-dep materialisation loop of the loader (internal/starlark/loader.go:718-765): names change their meaning under it.
- The texts of error messages, flatKernelHint, and which of several failures is reported first where a map is walked.
- The order of RuntimeClosure's result, which is Go's map order.
- The serial session's permanence of the closed state and liveness: setConnected does not check for it. internal/serial/client.go, transports, listeners, and bytes written to the adapter.
- Failing writes of the log's and the marker scanner's output, time stamps, and the timers that trigger an idle flush. Eight-bit C1 controls are single bytes to the log, as they are to the code.
- Deflate, sha1, sha256 and signatures themselves, tar contents, and the search for a signature's name in a member.
- The retries of a clone (one attempt that may fail at any point), the archive download path of the fetcher, deletion of cache entries by hand, and two sources that share a cache key because a URL or ref holds a '#'.
- Index freshness after packages are removed; the clock, the installed size and the sonames in PKGINFO are given; a size field that is no decimal number counts as 0.
- Starlark evaluation, modules and workspaces, git working trees, dpkg feeds, the user interface, QEMU, flashing, deployment and ssh.
- Non-ASCII digits, letters and white space in versions and index text.
