# Verified model of the ferric-rules Rete core

A Dafny model of the parts of the ferric-rules engine that promise to agree with something simpler: the rule
compiler with its shared join graph, rule removal, the agenda, the alpha network, the runtime memories of the beta
network, and the UTF-8 acceptor of the reference observer.

`dafny verify dfyconfig.toml` checks the whole project.

## How it is laid out

* `sequences.dfy`: lists of distinct ids. `syntax.dfy`, `validation.dfy`, `binding.dfy`: rule syntax, the rule validation, variable numbering and bindings.
* `network.dfy`, `wellformed.dfy`, `relink.dfy`: the beta graph as a value and its construction steps.
* `compile.dfy`, `meaning.dfy`, `joins.dfy`: compilation as a function on the graph and both caches; the operation chain a
  node stands for; the conditions' own reading, without ids or graph; their agreement; what shared variables ask for.
* `waits.dfy`, `planning.dfy`, `subscribers.dfy`, `readiness.dfy`: the NCC wait index, id demand and the installation
  frontier, subscriber lists, what a parent's memory must be configured for.
* `visiting.dfy`, `double_negation.dfy`, `visit_order.dfy`: where a finished NCC stands among its parent's children, which
  conjunctions are pure double negations, and what later work never reorders.
* `compaction.dfy`, `removal.dfy`, `removal_meaning.dfy`, `leftovers.dfy`, `runs.dfy`: removal with compaction, and whole
  histories.
* `beta_network.dfy`, `rete_compiler.dfy`: the objects that mutate the graph and the caches in place, each method tied to
  the function above it.
* `evaluate.dfy`, `splits.dfy`: constant tests and join comparisons on concrete values, positional splits of a fact.
  `concrete.dfy`, `indexing.dfy`: the meaning theorems over them, and why indexed lookups miss nothing.
* `index.dfy`, `alpha_memory.dfy`, `beta_memory.dfy`: hash indices that answer like scans; the two memories.
* `alpha_graph.dfy`, `alpha_growth.dfy`, `alpha_contents.dfy`, `alpha_network.dfy`, `alpha_paths.dfy`: the alpha test
  tree, its memories and the reverse index.
* `agenda_order.dfy`, `agenda_state.dfy`, `agenda.dfy`, `agenda_firing.dfy`: conflict resolution, the five structures, the
  agenda object, firing order.
* `ncc.dfy`, `exists.dfy`: NCC and exists memories. `utf8.dfy`: the acceptor.

## How to read it

A node's meaning is denotational: the tuples of facts, one choice per condition, that reach it over a fact set. A choice
is a fact and, for a sequence pattern, one of its positional splits; a filtering condition chooses nothing. `World`
collects what matching depends on besides the graph: the facts and the runtime's evaluators for constant tests,
positional splits, join comparisons and predicate conditions, all arbitrary functions. The only thing asked of them
is `Coherent`: the constant filter that ends a sequence path admits every fact that has a split. `FullyConcrete` is the world
in which all but predicate conditions, float arithmetic and string order are those of the source.

Where the source updates an object in place the model has a class with the same fields. Its methods say that the new
state is a function of the old one, and the properties are proved about those functions. Ghost fields record what the
source only implies: the order of birth of activations, the live facts in assertion order, the path each alpha memory
was built for, the fields a fact was inserted with.

Hash maps are finite maps, ordered maps are finite maps searched for their least key, insertion-ordered sets are
duplicate-free sequences, and slot tables hand out ids that are never reused. Where iteration order is unspecified the
model picks an arbitrary element, so nothing proved depends on it.

Four points where a reader might expect more than the code gives:

* `BetaMemory::insert` and `remove` take no bindings and leave the variable index alone. The index stays exact exactly
  when the token has no key under an indexed variable (`PlainInsertionIsExact`, `PlainRemovalIsExact`); with one it is not
  (`PlainInsertionMissesToken`, `PlainRemovalKeepsToken`).
* A memory made with `create_memory` on a node that already has one replaces it there; the old memory stays in the table
  and is no longer fed (`SecondMemoryOrphansFirst`). Earlier memories all stay attached exactly when the node had none
  (`CreationKeepsAttached`). The promise about contents is therefore about attached memories, and the compiler's path cache
  is what keeps it from replacing any (`BuildPath`).
* A negated constant test is not always the negation of the positive one: on a multifield, a void or a missing field neither
  holds (`KeyInequalityNegates`, `OrderTestsNegate`), while offset inequality also holds when the sum overflows
  (`OffsetInequalityNegates`).
* `remove_result_support` leaves a dangling primary until `reassign_primary` is called (`LostPrimaryIsUnsound`). In between
  the memory is sound exactly when no parent lost its primary (`UnsettledIsSound`), and after the settlement always
  (`RemovalIsConfluent`).

## Model

| member | source | states |
|---|---|---|
| `Meaning.CompilationPreservesMeaning` | crates/ferric-rules-core/src/compiler.rs:434-522 | For every accepted condition list, every fact set and every coherent set of evaluators: a tuple of choices reaches the compiled terminal's parent if and only if it satisfies the conditions, where a variable's first positive occurrence binds, later ones test equality, and variables in negated, existential and nested conditions stay local |
| `JoinMeaning.CompiledJoin` | crates/ferric-rules-core/src/compiler.rs:865-900 | A compiled rule of two patterns that share a variable matches exactly the pairs of fitting facts whose two fields exist and stand in the comparison asked for: equality when the variable is simply named again |
| `JoinMeaning.CompiledNegation` | crates/ferric-rules-core/src/compiler.rs:920-932 | With the second pattern negated, exactly the facts without such a partner; with it existential, exactly those with one |
| `JoinMeaning.CompiledConjunction` | crates/ferric-rules-core/src/compiler.rs:946-1016 | With a negated conjunction of two patterns, exactly the facts without a pair of partners |
| `JoinMeaning.CompiledPredicate` | crates/ferric-rules-core/src/compiler.rs:470-475 | A predicate condition is asked of the rule's own id, its own index and the facts chosen so far |
| `JoinMeaning.CompiledSequence` | crates/ferric-rules-core/src/compiler.rs:854-942 | A pattern with a sequence plan matches a fitting fact once for each of its splits |
| `JoinMeaning.CompiledMentionsAgree` | crates/ferric-rules-core/src/compiler.rs:865-900 | In every tuple any compiled rule matches, all positive mentions of a variable exist and have one value, through whatever splits |
| `ConcreteWorlds.SharedVariableJoins` | crates/ferric-rules-core/src/rete.rs:2930-2945 | With the concrete join comparison, a shared variable matches exactly the pairs that hold the same value other than void |
| `Meaning.SharingIsInvisible` | crates/ferric-rules-core/src/compiler.rs:826-852 | One rule compiled into two different networks, with whatever paths and joins each already shares, gets terminals with the same matches |
| `Meaning.CompilationKeepsOldMeanings` | crates/ferric-rules-core/src/compiler.rs:854-1016 | Compiling another rule leaves the matches of every older node unchanged |
| `Meaning.TermMeaning` | crates/ferric-rules-core/src/compiler.rs:854-1016 | The operation chain a rule compiles to accepts exactly the choices that satisfy its conditions |
| `Compile.RepresentsUnique` | crates/ferric-rules-core/src/compiler.rs:826-852 | A node of the graph stands for at most one operation chain, so sharing can never conflate two |
| `Compile.CompileRuleOk` | crates/ferric-rules-core/src/compiler.rs:434-522 | A compiled rule leaves a well-formed network whose new terminal hangs below a node standing for the conditions' own chain; both caches stay the exact inverses of the paths and joins |
| `Compile.CompileSeqOk` | crates/ferric-rules-core/src/compiler.rs:946-1016 | Any condition list compiled at any depth of negation leaves every older node standing for what it stood for |
| `WellFormed.OpenNccWf` | crates/ferric-rules-core/src/beta.rs:937-992 | Opening a conjunction under `not` keeps the tree, child lists, pairing and memory tables consistent, with one unfinished NCC |
| `WellFormed.CloseNccWf` | crates/ferric-rules-core/src/beta.rs:995-1014 | Closing it pairs the NCC with its partner and leaves the graph consistent |
| `Runs.InstalledRuleMeansItsConditions` | crates/ferric-rules-core/src/compiler.rs:261-283 | Over every history of installing and retiring rules: as long as a rule is not retired its terminal exists and matches exactly its conditions, over every fact set |
| `Runs.RunIsSound` | crates/ferric-rules-core/src/beta.rs:1499-1716 | Every reachable network is well formed, has an NCC wait index equal to the rebuilt one, subscriber lists that hold exactly the readers of each alpha memory in ascending id order, and parents configured for what their children ask |
| `Runs.EveryNccHasEntry` | crates/ferric-rules-core/src/beta.rs:1085-1105 | In every reachable network each NCC has a subnetwork entry, a child of its parent on the way down to its partner, and a present index lists it exactly when it feeds an enclosing subnetwork or is a pure double negation, with that entry, and marks it nested exactly when it feeds |
| `Runs.RetiredRuleIsGone` | crates/ferric-rules-core/src/beta.rs:608-640 | After a removal no terminal of a removed rule is left |
| `Subscriptions.CompilationKeepsSubscribers` | crates/ferric-rules-core/src/beta.rs:770-805 | Installing a rule keeps each alpha memory's join, negative and exists lists strictly ascending, with a node in a list if and only if it has that role and reads that memory |
| `Subscriptions.RemovalKeepsSubscribers` | crates/ferric-rules-core/src/beta.rs:746-764 | So does removal with its renumbered memories |
| `Removal.SubscribersListReaders` | crates/ferric-rules-core/src/beta.rs:746-764 | Rebuilding the lists in id order puts exactly the readers into each, ascending, and leaves no empty list |
| `Readiness.CompilationKeepsReady` | crates/ferric-rules-core/src/compiler.rs:901-918 | Every variable a join, negative or exists node selects by is indexed in its parent's memory, unless the parent is the root, and every parent of an NCC ranks its tokens |
| `Readiness.RemovalKeepsReady` | crates/ferric-rules-core/src/beta.rs:707-741 | Compaction moves memories without losing an index or a rank |
| `ReteCompilers.ReteCompiler.CompileConditions` | crates/ferric-rules-core/src/compiler.rs:317-339 | A rule is installed if and only if it is accepted, has at most 65,536 variables and its planned ids are left; otherwise neither network nor cache changes, in tests, contents or indices. An installed rule is compiled whole and the alpha memories stay equal to their filters |
| `ReteCompilers.ReteCompiler.CompileConditionsUnchecked` | crates/ferric-rules-core/src/compiler.rs:434-522 | After validation, variable numbering and the capacity check no step of the installation can fail |
| `ReteCompilers.ReteCompiler.CompileSequence` | crates/ferric-rules-core/src/compiler.rs:456-492 | The mutating loop over conditions computes the compilation function, within the planned ids |
| `ReteCompilers.ReteCompiler.PlanConditions` | crates/ferric-rules-core/src/compiler.rs:341-354 | A plan exists exactly for an accepted rule within the variable limit, and has an id for every variable the compiler looks up |
| `ReteCompilers.ReteCompiler.InstallPlans` | crates/ferric-rules-core/src/compiler.rs:357-378 | A batch is installed if and only if the sum of its demands fits the id space; then every plan is, in order, and otherwise nothing changes |
| `ReteCompilers.ReteCompiler.CompileCondition` | crates/ferric-rules-core/src/compiler.rs:456-492 | One condition below its parent, within its own share of the planned ids |
| `ReteCompilers.ReteCompiler.CompileNcc` | crates/ferric-rules-core/src/compiler.rs:946-1016 | The parent's ranks, the NCC, its subnetwork, partner, relinking and wait registration, in the order of the source |
| `ReteCompilers.ReteCompiler.CompilePatternNode` | crates/ferric-rules-core/src/compiler.rs:854-942 | One pattern: alpha path, join tests, index requests on both sides, then a negative, exists or shared join node; every equality selector of every reader stays indexed in the alpha memory it reads |
| `ReteCompilers.ReteCompiler.PreparePattern` | crates/ferric-rules-core/src/compiler.rs:865-918 | The alpha path, the join tests and binding extractions, and both memories indexed by exactly the selectors with a fixed physical position |
| `ReteCompilers.RemovalKeepsAlphaIndexed` | crates/ferric-rules-core/src/compiler.rs:261-283 | After compaction every selector of every surviving reader is still indexed in the memory it reads |
| `ReteCompilers.ReteCompiler.EnsureAlphaPath` | crates/ferric-rules-core/src/compiler.rs:781-823 | Identical paths share one memory, and a new one holds the facts asserted before it |
| `ReteCompilers.ReteCompiler.EnsureJoinNode` | crates/ferric-rules-core/src/compiler.rs:826-852 | Identical join structures share one node |
| `ReteCompilers.ReteCompiler.RemoveRules` | crates/ferric-rules-core/src/compiler.rs:261-283 | Keeps the least graph the surviving terminals need, compacts every table, and leaves caches whose entries name exactly those structures; no lookup of a renumbered id fails |
| `ReteCompilers.RemapJoinCache` | crates/ferric-rules-core/src/compiler.rs:274-282 | Renumbered keys never collide and keep their node |
| `Validation.ValidateConditions` | crates/ferric-rules-core/src/compiler.rs:536-580 | The bounded worklist and the structural pass accept exactly the well-structured rules within both limits |
| `Validation.AcceptedByPosition` | crates/ferric-rules-core/src/compiler.rs:536-580 | A rule is accepted exactly when it has at most 64 conditions in all and each, at whatever depth, fits: no empty conjunction, no existential inside one, no variable at two slots, tests allowed |
| `Validation.NestingByPosition` | crates/ferric-rules-core/src/compiler.rs:635-658 | Nesting is allowed exactly when no test inside a disjunction, at whatever depth, looks at the whole fact |
| `Validation.ValidatePatternTests` | crates/ferric-rules-core/src/compiler.rs:582-624 | Test limits, nesting rules and the fit of a sequence plan to its pattern, both directions |
| `Validation.ValidatePlan` | crates/ferric-rules-core/src/sequence.rs:170-229 | Accepts exactly the plans with distinct template sources, at most 64 tests and only logical fields as selectors |
| `Validation.CheckSelectors` | crates/ferric-rules-core/src/sequence.rs:203-228 | The worklist refuses exactly the plans with a bad selector or a whole-fact test at any depth |
| `Validation.CheckNesting` | crates/ferric-rules-core/src/compiler.rs:635-658 | The worklist refuses exactly the whole-fact constraints inside disjunctions |
| `Validation.ValidatePatternStructure` | crates/ferric-rules-core/src/compiler.rs:738-766 | A variable names at most one slot, found by the insertion scan |
| `Syntax.ConstantTestCount` | crates/ferric-rules-core/src/alpha.rs:100-113 | The iterative count equals the recursive number of test nodes, saturating instead of overflowing |
| `Binding.PrepareVarMap` | crates/ferric-rules-core/src/compiler.rs:399-432 | Fails exactly when there are more than 65,536 distinct variables; otherwise answers every lookup the compiler makes, with distinct ids |
| `Binding.VarMap.GetOrCreate` | crates/ferric-rules-core/src/binding.rs:49-66 | Refuses only a new name when 65,536 are taken; names and ids stay mutually inverse |
| `Binding.BindingSet.Set` | crates/ferric-rules-core/src/binding.rs:183-189 | Binds one variable and leaves the others |
| `Binding.BindingSet.ExtendFrom` | crates/ferric-rules-core/src/binding.rs:195-204 | Existing bindings win; everything else is copied |
| `Binding.NumberedFails` | crates/ferric-rules-core/src/binding.rs:49-66 | Numbering by first occurrence fails if and only if the distinct names exceed the sixteen-bit ids |
| `Planning.InstallationStaysWithinPlan` | crates/ferric-rules-core/src/compiler.rs:122-132 | The planned bound is never exceeded and is met exactly when no join is shared; every id in the range taken is used, and no memory table grows by more |
| `Planning.BatchStaysWithinPlan` | crates/ferric-rules-core/src/compiler.rs:357-362 | A batch never takes more ids than the sum of its plans, however its rules share joins with each other or with older rules, and takes them all exactly when nothing is shared |
| `Planning.FrontierIsExact` | crates/ferric-rules-core/src/beta.rs:1293-1315 | The frontier is exactly the edges from an old parent to a new child, in id order |
| `Planning.FrontierReaches` | crates/ferric-rules-core/src/beta.rs:1286-1315 | Every node allocated since the boundary hangs below exactly one frontier child, through new nodes only |
| `BetaNetworks.BetaNetwork.InstallationFrontier` | crates/ferric-rules-core/src/beta.rs:1293-1315 | The id-range scan yields that frontier |
| `BetaNetworks.BetaNetwork.EnsureNodeCapacity` | crates/ferric-rules-core/src/beta.rs:1407-1421 | Accepts exactly the demands for which every id allocation will succeed |
| `Relink.RelinkIsReordering` | crates/ferric-rules-core/src/beta.rs:1042-1082 | Relinking moves the NCC and keeps every other child in its relative order |
| `Visiting.FreshEntryVisitedJustBeforeNcc` | crates/ferric-rules-core/src/beta.rs:1016-1026 | When its compilation ends, a freshly created subnetwork entry that is not an NCC is visited immediately before its NCC, under any parent but the root; a later NCC may be linked between the two |
| `VisitOrder.SurvivorsKeepTheirOrder` | crates/ferric-rules-core/src/beta.rs:1042-1082 | In every history, of two children of a node that are both still there, the one visited first is still visited first, whatever was installed or retired in between |
| `VisitOrder.CompilationKeepsOrder` | crates/ferric-rules-core/src/beta.rs:1042-1082 | Compiling a rule keeps every older node's older children, in their order |
| `DoubleNegation.PureIsVisitedLast` | crates/ferric-rules-core/src/beta.rs:1028-1041 | Compiled below any parent but the root, a pure double negation is visited after every child of that parent its own subnetwork created |
| `DoubleNegation.PureStandsAtItsOwn` | crates/ferric-rules-core/src/beta.rs:1028-1041 | It stands just before one of the children its own subnetwork created, and second in visit order when there is none |
| `DoubleNegation.OthersAreVisitedSecond` | crates/ferric-rules-core/src/beta.rs:1016-1026 | Every other finished NCC below a parent other than the root has exactly one sibling visited before it, if it has any |
| `DoubleNegation.PureMeansSingleConjunction` | crates/ferric-rules-core/src/beta.rs:1101-1120 | A compiled conjunction is recognised as a pure double negation if and only if its only condition is itself a conjunction |
| `DoubleNegation.SubnetworkIds` | crates/ferric-rules-core/src/compiler.rs:963-1015 | The compiled node is an NCC whose partner is the newest node, and the ids between are exactly the other nodes its compilation created |
| `BetaNetworks.BetaNetwork.LinkNccAfterSubnetwork` | crates/ferric-rules-core/src/beta.rs:1042-1082 | The in-place relinking performs that reordering and nothing else |
| `Waits.CompilationKeepsIndex` | crates/ferric-rules-core/src/beta.rs:1157-1165 | The wait index registered step by step during compilation equals the one rebuilt from the graph, so the compiler's nesting flag agrees with the graph search for every NCC; and each wait marks exactly the NCCs that feed an enclosing subnetwork as nested and names the child of the parent on the way to the partner |
| `Waits.CompilationKeepsChains` | crates/ferric-rules-core/src/compiler.rs:946-1016 | Every partner closes its own chain, and no NCC on a rule's main chain feeds an enclosing one |
| `RemovalMeaning.RemovalKeepsIndex` | crates/ferric-rules-core/src/beta.rs:644-648 | Filtering the index on removal gives the index rebuilt from what is left, which says of each NCC what the graph says |
| `BetaNetworks.BetaNetwork.EnableParentRanks` | crates/ferric-rules-core/src/beta.rs:959-964 | The NCC's parent ranks its tokens from here on; nothing else changes |
| `BetaNetworks.BetaNetwork.RequestVarIndexes` | crates/ferric-rules-core/src/compiler.rs:909-918 | Indexes the parent's memory on every wanted variable, once each, except under the root |
| `BetaNetworks.BetaNetwork.NccFeedsEnclosingSubnetwork` | crates/ferric-rules-core/src/beta.rs:1126-1144 | The downward search answers whether some partner below the NCC reports to an older NCC |
| `BetaNetworks.BetaNetwork.EnsureNccEntryWaitIndex` | crates/ferric-rules-core/src/beta.rs:1168-1182 | A dropped index is rebuilt and says of each NCC what the graph says; a present one is left alone |
| `BetaNetworks.BetaNetwork.NccSubnetworkEntry` | crates/ferric-rules-core/src/beta.rs:1085-1100 | Finds the child of the NCC's parent on the path down to the partner |
| `BetaNetworks.BetaNetwork.NccIsPureDoubleNegation` | crates/ferric-rules-core/src/beta.rs:1108-1120 | Decides on the graph the shape that `PureMeansSingleConjunction` explains in conditions |
| `RemovalMeaning.RemovalPreservesMeaning` | crates/ferric-rules-core/src/beta.rs:608-764 | Exactly the terminals of the other rules are left, each with the matches it had, and every surviving node keeps its matches and the contents of its memory |
| `RemovalMeaning.RemovalKeepsEngine` | crates/ferric-rules-core/src/compiler.rs:261-283 | The engine left behind is well formed and both caches again name exactly the surviving structures |
| `Removal.RetainedUnique` | crates/ferric-rules-core/src/beta.rs:606-640 | The retained set is determined: the least set with the root and survivors closed under parents and partners |
| `Removal.RetainedIsNeeded` | crates/ferric-rules-core/src/beta.rs:606-640 | A node is retained exactly when steps to parents, and from an NCC to its partner, lead to it from the root or from the terminal of a rule that stays |
| `Removal.RetainedKinds` | crates/ferric-rules-core/src/beta.rs:606-640 | Removed rules lose their terminals, and a partner stays only with its NCC |
| `Removal.RetainedCovered` | crates/ferric-rules-core/src/beta.rs:707-741 | Every memory a retained node refers to survives, so no renumbering lookup can fail |
| `Leftovers.NothingOrphaned` | crates/ferric-rules-core/src/beta.rs:642-742 | After a removal every entry of every table, alpha memories included, is used by some node |
| `Removal.SurvivorsUnchanged` | crates/ferric-rules-core/src/beta.rs:642-742 | A survivor keeps its kind, tests, links among survivors, path and memory contents |
| `BetaNetworks.BetaNetwork.RetainedNodes` | crates/ferric-rules-core/src/beta.rs:608-640 | The worklist computes that least closed set |
| `BetaNetworks.BetaNetwork.RetainNodes` | crates/ferric-rules-core/src/beta.rs:644-742 | Drops the other nodes, compacts the four tables in place and reports the alpha memories still read |
| `BetaNetworks.BetaNetwork.RemapAlphaMemories` | crates/ferric-rules-core/src/beta.rs:746-764 | Points every reader at its renumbered memory and lists readers in id order |
| `Compaction.CompactAt` | crates/ferric-rules-core/src/beta.rs:707-718 | A survivor is found under its new id with its contents |
| `Compaction.RankInjective` | crates/ferric-rules-core/src/beta.rs:707-718 | New ids of survivors are distinct |
| `AlphaNetworks.AlphaNetwork.AssertFact` | crates/ferric-rules-core/src/alpha.rs:609-629 | Exactly the attached memories whose entry type and tests the fact passes receive it; every memory stays equal to the filter of the live facts in assertion order, and the reverse index stays its exact inverse |
| `AlphaNetworks.AlphaNetwork.RetractFact` | crates/ferric-rules-core/src/alpha.rs:634-647 | The fact leaves every memory that held it, through the reverse index alone |
| `AlphaNetworks.AlphaNetwork.BackfillMemory` | crates/ferric-rules-core/src/alpha.rs:554-593 | A memory created late holds the matching facts in assertion order, whatever order the fact base is iterated in |
| `AlphaNetworks.AlphaNetwork.RetainMemories` | crates/ferric-rules-core/src/alpha.rs:405-471 | Keeps exactly the retained memories and the nodes leading to one, with their paths, contents, entries and reverse index |
| `AlphaNetworks.AlphaNetwork.ClearAllMemories` | crates/ferric-rules-core/src/alpha.rs:666-671 | Empties every memory and keeps every path |
| `AlphaNetworks.AlphaNetwork.Propagate` | crates/ferric-rules-core/src/alpha.rs:738-772 | The recursion fills each reached memory once, parents before children |
| `AlphaNetworks.AlphaNetwork.CreateEntryNode` | crates/ferric-rules-core/src/alpha.rs:483-503 | One entry node per entry type; memories and reverse index untouched |
| `AlphaNetworks.AlphaNetwork.CreateConstantTestNode` | crates/ferric-rules-core/src/alpha.rs:508-527 | A new test node extends its parent's path; under a missing parent it hangs nowhere, and the tree stays well formed if and only if that parent is not the id being allocated |
| `AlphaNetworks.AlphaNetwork.CreateMemory` | crates/ferric-rules-core/src/alpha.rs:533-548 | A new empty memory at the next id |
| `AlphaNetworks.AlphaNetwork.RequestIndexes` | crates/ferric-rules-core/src/compiler.rs:903-907 | Indexes one memory on the wanted physical slots and leaves every memory's facts and every other memory's indices |
| `AlphaGrowth.WithTestKeepsTree` | crates/ferric-rules-core/src/alpha.rs:508-527 | A node whose parent is its own future id becomes its own child: exactly then the tree is no longer one |
| `AlphaGrowth.CreationKeepsAttached` | crates/ferric-rules-core/src/alpha.rs:533-548 | Creating a memory leaves every earlier memory attached if and only if the node had none |
| `AlphaGrowth.SecondMemoryOrphansFirst` | crates/ferric-rules-core/src/alpha.rs:533-548 | Two memories on one entry node: no fact reaches the first any more |
| `AlphaGraph.AcceptedByNetwork` | crates/ferric-rules-core/src/alpha.rs:738-772 | Propagation from the entry reaches each memory whose path the fact passes, once, and no other |
| `AlphaNetworks.AssertedState` | crates/ferric-rules-core/src/alpha.rs:609-629 | Asserting keeps all memories equal to their filters and the reverse index exact |
| `AlphaNetworks.RetractedState` | crates/ferric-rules-core/src/alpha.rs:634-647 | Retracting does |
| `AlphaNetworks.PrunedState` | crates/ferric-rules-core/src/alpha.rs:405-471 | Pruning does |
| `AlphaGrowth.PrunedWf` | crates/ferric-rules-core/src/alpha.rs:424-461 | The pruned tree is well formed and has the same paths |
| `AlphaGrowth.MarkNodes` | crates/ferric-rules-core/src/alpha.rs:424-431 | The backward pass marks exactly the nodes that lead to a retained memory |
| `AlphaContents.ChronologyUnique` | crates/ferric-rules-core/src/alpha.rs:568-576 | Sorting by assertion timestamp determines the list |
| `AlphaPaths.CompileTimeIsInvisible` | crates/ferric-rules-core/src/alpha.rs:550-553 | Compiling a rule before or after its facts arrive gives the same memory |
| `AlphaPaths.MembersPassPath` | crates/ferric-rules-core/src/alpha.rs:609-629 | A join's candidates are exactly the live facts its path admits |
| `AlphaPaths.BuildPath` | crates/ferric-rules-core/src/compiler.rs:808-822 | A new path's memory serves that path at once and every older memory keeps serving its own |
| `AlphaMemories.AlphaMemory.Insert` | crates/ferric-rules-core/src/alpha.rs:196-215 | Every indexed lookup keeps answering like a full scan, without empty buckets |
| `AlphaMemories.AlphaMemory.Remove` | crates/ferric-rules-core/src/alpha.rs:220-234 | The same after a removal |
| `AlphaMemories.AlphaMemory.RequestIndex` | crates/ferric-rules-core/src/alpha.rs:239-262 | A slot indexed late answers for the facts already present |
| `AlphaMemories.AlphaMemory.LookupBySlot` | crates/ferric-rules-core/src/alpha.rs:288-294 | For an atomic key in an indexed slot, lists exactly the member facts whose field at that position is that value, once each, in insertion order |
| `Index.ExactUnique` | crates/ferric-rules-core/src/alpha.rs:339-359 | The canonical index is determined by the members: however it was maintained, it equals a rebuilt one |
| `Evaluation.DisjunctionOfConjunctions` | crates/ferric-rules-core/src/alpha.rs:844-857 | A field disjunction holds exactly when its slot exists and some branch holds throughout; an empty branch accepts any existing field, an empty disjunction nothing |
| `Evaluation.KeyTests` | crates/ferric-rules-core/src/alpha.rs:858-863 | A key test holds exactly when the field at that position is the key and atomic; inequality exactly when it is another atomic value |
| `Evaluation.EqualAnyTest` | crates/ferric-rules-core/src/alpha.rs:864-866 | A test against several keys holds exactly when the field is one of them and atomic |
| `Evaluation.OtherSlotTests` | crates/ferric-rules-core/src/alpha.rs:887-896 | A test between two slots holds exactly when both fields exist and are, or are not, the same value |
| `Evaluation.FieldCountTest` | crates/ferric-rules-core/src/alpha.rs:823-827 | Holds exactly for ordered facts within the bounds |
| `Evaluation.OffsetTests` | crates/ferric-rules-core/src/alpha.rs:897-931 | Between integer slots the six offset tests are the relations to the shifted number while it fits 64 bits; past that only inequality holds |
| `Evaluation.JoinEqualityTests` | crates/ferric-rules-core/src/rete.rs:2930-2945 | Join equality is equality of values except that void equals nothing, and inequality its negation on the rest |
| `Evaluation.IntegerJoinTests` | crates/ferric-rules-core/src/rete.rs:2716-2780 | On integers the join tests are the relations between field and binding with the offset on the binding; an overflowing offset admits nothing |
| `Splits.SplitsAreProjections` | crates/ferric-rules-core/src/sequence.rs:258-292 | The search finds exactly the projections: one part a segment, a value for each single field, a multifield for each capture, together all the source's values |
| `Splits.SplitsLongestFirst` | crates/ferric-rules-core/src/sequence.rs:240-257 | Splits arrive longest capture first, earlier captures and segments outermost |
| `Splits.SplitsDistinct` | crates/ferric-rules-core/src/sequence.rs:240-257 | And each arrives once |
| `Splits.ValidSlotReads` | crates/ferric-rules-core/src/sequence.rs:82-98 | A logical slot is valid exactly when it reads a field of every split of a fact of the plan's kind |
| `Splits.WidthCoversFields` | crates/ferric-rules-core/src/sequence.rs:60-68 | The width counts the fields of the segments: a position is below it exactly when some field stands there |
| `Splits.SelectorReadsLogicalField` | crates/ferric-rules-core/src/sequence.rs:100-132 | Under every split a physical selector reads the same field as the logical slot |
| `Indexing.IndexableAreEqualities` | crates/ferric-rules-core/src/rete.rs:2790-2812 | What is requested is exactly the variables of equality tests on fields with a fixed physical slot, at that slot |
| `Indexing.OrderedSelectorsAreLeadingSingles` | crates/ferric-rules-core/src/sequence.rs:104-117 | In an ordered plan the fixed fields are exactly the single fields before the first capture |
| `Indexing.TemplateSelectorsAreScalars` | crates/ferric-rules-core/src/sequence.rs:118-130 | In a template plan they are exactly the scalar slots |
| `Indexing.LookupFindsEveryMatch` | crates/ferric-rules-core/src/rete.rs:2790-2812 | A fact that passes an indexed equality test, whole or under any split, is listed by the lookup of the token's binding |
| `Indexing.LookupFindsEveryToken` | crates/ferric-rules-core/src/rete.rs:2790-2812 | A token that passes it is listed by the lookup of the value the fact's view reads |
| `Indexing.CompiledMeansFully` | crates/ferric-rules-core/src/compiler.rs:434-522 | With concrete tests, comparisons and splits a compiled rule matches exactly what its conditions ask for; only floats, string order and predicate conditions stay open |
| `Evaluation.KeyInequalityNegates` | crates/ferric-rules-core/src/alpha.rs:858-863 | Inequality with a key is the negation of equality if and only if the slot holds an atomic value |
| `Evaluation.InequalityDoesNotAlwaysNegate` | crates/ferric-rules-core/src/alpha.rs:936-944 | On a multifield neither holds |
| `Evaluation.OrderTestsNegate` | crates/ferric-rules-core/src/alpha.rs:867-884 | Each order test is the negation of its opposite if and only if field and key compare as numbers |
| `Evaluation.IntegerTests` | crates/ferric-rules-core/src/alpha.rs:858-884 | On integers the six key tests are the six relations between numbers |
| `ConcreteWorlds.CompiledMeansConcretely` | crates/ferric-rules-core/src/alpha.rs:812-857 | With the constant tests evaluated concretely and sequence tests asking for a split, a compiled rule matches exactly what its conditions ask for, over any facts and with nothing left to assume |
| `ConcreteWorlds.ConcreteIsCoherent` | crates/ferric-rules-core/src/alpha.rs:812-843 | A world over concrete tests meets the one assumption of the meaning theorems if and only if every fact with a split is admitted |
| `ConcreteWorlds.TestsDecideMatches` | crates/ferric-rules-core/src/alpha.rs:812-857 | A rule of one pattern without variables matches exactly the facts of its entry type that pass every test |
| `ConcreteWorlds.KeyRuleMatchesKey` | crates/ferric-rules-core/src/alpha.rs:858-863 | A compiled rule that tests one slot for an atomic key matches exactly the live facts of its entry type that hold the key there |
| `ConcreteWorlds.RangeRuleMatchesRange` | crates/ferric-rules-core/src/alpha.rs:858-884 | A compiled range rule matches an integer field exactly when it lies in the range |
| `Evaluation.OffsetInequalityNegates` | crates/ferric-rules-core/src/alpha.rs:895-907 | Offset inequality is the negation of offset equality if and only if both slots exist; an overflowing sum counts as different |
| `BetaMemories.BetaMemory.InsertIndexed` | crates/ferric-rules-core/src/beta.rs:293-310 | Variable lookups keep answering like a full scan, and NCC parent ranks stay strictly increasing along insertion order, below the counter, over exactly the members |
| `BetaMemories.BetaMemory.RemoveIndexed` | crates/ferric-rules-core/src/beta.rs:326-348 | The same after a removal |
| `BetaMemories.BetaMemory.RequestVarIndex` | crates/ferric-rules-core/src/beta.rs:228-252 | A variable indexed late answers for the tokens already present |
| `BetaMemories.BetaMemory.LookupByVar` | crates/ferric-rules-core/src/beta.rs:276-278 | For an atomic key and an indexed variable, lists exactly the member tokens that bind it to that value, once each, in insertion order |
| `BetaMemories.BetaMemory.EnableNccParentRanks` | crates/ferric-rules-core/src/beta.rs:162-173 | Ranking can be enabled on a populated memory |
| `BetaMemories.BetaMemory.RecordNccParentRank` | crates/ferric-rules-core/src/beta.rs:181-199 | The new token ranks above all others, also when the exhausted counter is rebased |
| `BetaMemories.BetaMemory.NccParentRank` | crates/ferric-rules-core/src/beta.rs:177-179 | Newer members rank higher |
| `BetaMemories.BetaMemory.Clear` | crates/ferric-rules-core/src/beta.rs:378-385 | Empties the memory and keeps its configuration |
| `BetaMemories.PlainInsertionIsExact` | crates/ferric-rules-core/src/beta.rs:283-287 | Inserting a token without its bindings keeps the index exact if and only if none of them has a key under an indexed variable |
| `BetaMemories.PlainRemovalIsExact` | crates/ferric-rules-core/src/beta.rs:315-320 | Removing a token without its bindings keeps the index exact under the same condition and no other |
| `BetaMemories.PlainInsertionMissesToken` | crates/ferric-rules-core/src/beta.rs:283-287 | One token whose binding is indexed: inserted plainly, it is in the memory and in no bucket |
| `BetaMemories.PlainRemovalKeepsToken` | crates/ferric-rules-core/src/beta.rs:315-320 | The same token removed plainly: its bucket still names it |
| `Agendas.PopIsDetermined` | crates/ferric-rules-core/src/agenda.rs:324-397 | The linear scan and the per-rule index meet the same determined specification: for every reachable agenda they return the same activation and leave the same agenda, however the lazy index was built and mutated |
| `Agendas.Agenda.PopMatchingRule` | crates/ferric-rules-core/src/agenda.rs:364-397 | The indexed pop takes the best eligible entry of the birth-ordered list, if any |
| `Agendas.Agenda.PopMatching` | crates/ferric-rules-core/src/agenda.rs:324-354 | So does the linear scan |
| `Agendas.Agenda.Pop` | crates/ferric-rules-core/src/agenda.rs:304-317 | And the plain pop, for everyone |
| `Agendas.Agenda.Add` | crates/ferric-rules-core/src/agenda.rs:245-273 | A new activation becomes the youngest entry of the list, also across counter exhaustion; all five structures stay consistent |
| `Agendas.Agenda.RebaseSequences` | crates/ferric-rules-core/src/agenda.rs:276-299 | Renumbering changes neither the birth order nor anything else about a live activation |
| `Agendas.NumbersAreInvisible` | crates/ferric-rules-core/src/agenda.rs:22-27 | Two agendas that differ only in sequence numbers pop alike under every strategy, so rebasing cannot be observed |
| `Agendas.Agenda.RemoveActivationsForToken` | crates/ferric-rules-core/src/agenda.rs:407-430 | Takes out exactly the token's activations and lists them oldest first; the others stay in their order |
| `Agendas.Agenda.RemoveActivationsForRule` | crates/ferric-rules-core/src/agenda.rs:435-459 | Takes out exactly the rule's activations; the others stay in their order |
| `Agendas.Agenda.SetStrategy` | crates/ferric-rules-core/src/agenda.rs:500-517 | Every activation stays and fires in the new strategy's order |
| `Agendas.Agenda.Clear` | crates/ferric-rules-core/src/agenda.rs:520-528 | Empties the agenda and keeps the strategy |
| `Agendas.Agenda.IterOrdered` | crates/ferric-rules-core/src/agenda.rs:484-488 | Lists the live activations strictly sorted |
| `Agendas.DrainIsSorted` | crates/ferric-rules-core/src/agenda.rs:301-317 | Popping until empty yields every live activation once, sorted by salience, strategy, complexity and sequence |
| `Agendas.SortedListingIsUnique` | crates/ferric-rules-core/src/agenda.rs:482-517 | There is one such listing, so draining, inspecting and a fresh sort agree |
| `AgendaOrder.KeyOrderIsTotal` | crates/ferric-rules-core/src/agenda.rs:113-144 | The key order is a strict total order |
| `AgendaOrder.KeyOrderIsBirthOrder` | crates/ferric-rules-core/src/agenda.rs:207-239 | With sequences handed out in birth order, comparing keys is comparing salience, strategy, complexity and birth |
| `AgendaOrder.LexKeyIgnoresOrder` | crates/ferric-rules-core/src/agenda.rs:213-219 | The LEX key is unchanged by permuting a recency vector |
| `AgendaOrder.LongerRecencyWins` | crates/ferric-rules-core/src/agenda.rs:113-128 | Under LEX a vector beats its own proper prefix |
| `Firing.BreadthTakesOldestDepthNewest` | crates/ferric-rules-core/src/agenda.rs:304-397 | Under Breadth a pop takes the oldest of the eligible activations of greatest salience, under Depth the newest |
| `Firing.LexTakesMostRecent` | crates/ferric-rules-core/src/agenda.rs:113-140 | Under LEX nothing eligible of the greatest salience is more recent than the popped activation, told by the first difference of the recencies in descending order; equal recencies go to greater complexity, then age |
| `Firing.MeaTakesGreatestFirst` | crates/ferric-rules-core/src/agenda.rs:122-140 | Under MEA none has a greater first recency, and among equal first recencies the choice is that of LEX |
| `AgendaOrder.LexLessIsMoreRecent` | crates/ferric-rules-core/src/agenda.rs:113-128 | The order on recency vectors is the order by the first difference, with a proper extension ahead of its prefix |
| `Firing.LexTakesLongest` | crates/ferric-rules-core/src/agenda.rs:304-397 | Under LEX no eligible activation of the same salience extends the popped one's sorted recency; one it extends stays on the agenda |
| `Firing.BreadthIsFifoDepthIsLifo` | crates/ferric-rules-core/src/agenda.rs:118-122 | Popping until empty fires the activations of each salience in the order they were added under Breadth and in its reverse under Depth, whatever their sequence numbers |
| `Firing.FireAcrossRebase` | crates/ferric-rules-core/src/agenda.rs:276-299 | Two batches with a renumbering between them fire in that order, together with what the agenda held |
| `Firing.DrainExists` | crates/ferric-rules-core/src/agenda.rs:304-317 | Every agenda can be popped until empty |
| `Firing.Drain` | crates/ferric-rules-core/src/agenda.rs:304-317 | Popping in a loop drains the agenda and yields the one sorted listing |
| `AgendaState.InsertedConsistent` | crates/ferric-rules-core/src/agenda.rs:541-663 | Insertion keeps the full five-way invariant |
| `AgendaState.RemovedConsistent` | crates/ferric-rules-core/src/agenda.rs:541-663 | Removal keeps it |
| `NccMemories.RemovalIsConfluent` | crates/ferric-rules-core/src/ncc.rs:140-184 | With one replacement order, removing a set of results one by one in any order equals removing all supports and settling each parent that lost its primary once, in any order |
| `NccMemories.PrunedSound` | crates/ferric-rules-core/src/ncc.rs:274-356 | After any such removal the primary is the oldest surviving result and counts equal the owned results |
| `NccMemories.PrunedStamp` | crates/ferric-rules-core/src/ncc.rs:140-184 | A parent that lost its oldest result takes the new block order and its oldest survivor as primary; other parents keep both |
| `NccMemories.NccMemory.AddResult` | crates/ferric-rules-core/src/ncc.rs:91-114 | A first result becomes the parent's primary with the block order it came with; later ones change neither, and known results change nothing |
| `NccMemories.NccMemory.RemoveResult` | crates/ferric-rules-core/src/ncc.rs:140-150 | The oldest survivor takes over from a removed primary with the new block order; other removals keep primary and order |
| `NccMemories.UnsettledIsSound` | crates/ferric-rules-core/src/ncc.rs:153-166 | After a batch of supports is withdrawn the memory is sound if and only if no parent lost its primary |
| `NccMemories.LostPrimaryIsUnsound` | crates/ferric-rules-core/src/ncc.rs:153-166 | Two results of one parent, the older withdrawn: it is still recorded as the primary |
| `NccMemories.NccMemory.RemoveResultSupport` | crates/ferric-rules-core/src/ncc.rs:153-166 | Withdraws support and leaves primaries for the later settlement: the memory is sound in between if and only if the result was not its parent's primary |
| `NccMemories.NccMemory.ReassignPrimary` | crates/ferric-rules-core/src/ncc.rs:169-184 | Chooses the oldest survivor, or reports that the parent unblocks |
| `NccMemories.NccMemory.RemoveParentToken` | crates/ferric-rules-core/src/ncc.rs:232-242 | Forgets one parent with all its results and no other |
| `NccMemories.NccMemory.SetUnblocked` | crates/ferric-rules-core/src/ncc.rs:206-208 | Recording a pass-through keeps blocked and passed-through parents apart if and only if the parent has no results |
| `ExistsMemories.RunBalances` | crates/ferric-rules-core/src/exists.rs:8-18 | Over every run of the protocol: satisfied exactly when supported, both support indices inverse, and creations minus retractions per parent always 0 or 1 |
| `ExistsMemories.RunSupports` | crates/ferric-rules-core/src/exists.rs:71-106 | In every run a fact supports a parent exactly when some event gave that support and none after it ended it |
| `ExistsMemories.RunStoresLatest` | crates/ferric-rules-core/src/exists.rs:126-141 | In every run the stored pass-through of a satisfied parent is the one given with its latest creating event |
| `ExistsMemories.RunRetractsLatest` | crates/ferric-rules-core/src/rete.rs:2290-2303 | In every run the token taken back for a parent is the one given with its latest creating event |
| `ExistsMemories.ExistsMemory.Support` | crates/ferric-rules-core/src/exists.rs:71-81 | The first support creates the pass-through, and only the first |
| `ExistsMemories.ExistsMemory.Withdraw` | crates/ferric-rules-core/src/exists.rs:86-106 | Losing the last support, and only that, takes back the pass-through stored for the parent |
| `ExistsMemories.ExistsMemory.Enter` | crates/ferric-rules-core/src/rete.rs:2111-2138 | A parent entering with matching facts gets one pass-through |
| `ExistsMemories.ExistsMemory.RemoveParentToken` | crates/ferric-rules-core/src/exists.rs:150-165 | Forgets a parent in all three maps |
| `Utf8.ValidUtf8` | docker/clips-reference/ferric-clips-observer.c:462-509 | Accepts a byte string if and only if it is a concatenation of encodings of Unicode scalar values |
| `Utf8.DecodingIsUnique` | docker/clips-reference/ferric-clips-observer.c:462-509 | That scalar sequence is unique |
| `Utf8.PrefixFree` | docker/clips-reference/ferric-clips-observer.c:462-509 | No encoding is a prefix of another's |
| `Compaction.CompactMemories` | crates/ferric-rules-core/src/beta.rs:22-39 | One pass moves survivors down, keeps their order and contents, and records where each went |

## Left out

- Token propagation, left and right activation and retraction cascades (`rete.rs`, `token.rs`, `negative.rs`): the graph
  is given a denotational reading instead.
- The bodies of predicate conditions: arbitrary functions. Float comparison, the addition of an offset to a float and the order
  of strings are arbitrary too; floats are otherwise opaque keys.
- The split search's pruning by tests that are ready early, its early stop and the copying of captures: its results are
  modelled, in order.
- Memory-id counters: each equals the length of its table; running out of 32-bit memory or alpha ids is not modelled. Node
  ids are.
- `compile_rule`, which wraps plain pattern lists, rule-id allocation, and the list of alpha memories a compilation reports.
- The tokens held by the runtime memories inside the graph: carried along unchanged by compaction. Their configuration, which
  variables are indexed and whether tokens are ranked, is modelled.
- Retiring the rules a batch replaces between its capacity check and its installation: removal leaves the id counter alone.
- `NccMemory::increment_results` and `decrement_results` called directly, which bypass the other maps.
- Snapshots, tracing, error texts and the small-vector and reference-counting choices.
- Everything else of the observer, and all bindings, tools and generators around the engine.
- ReteCompilers.ReteCompiler.CompileConditions: takes the finished fact base as one value that mirrors the facts the alpha
  network has seen, because the fact store itself is not modelled.
- AlphaNetworks.AlphaNetwork.AssertFact: a fact id is asserted once while live, as the fact store guarantees.
- Agendas.Agenda.Add: requires fewer than 2^32 - 1 live activations, the capacity of the source's slot table.
- BetaMemories.BetaMemory.InsertIndexed: requires the member count to fit the rank space, as the source's conversion does.
