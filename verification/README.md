# C-plus: a verified model

C-plus extends C with checked errors, deferred statements, methods and imports; its Kotlin compiler lowers them to C
step by step, and an editor extension talks to its language server. The grammar carries two larger C programs as
samples, an allocator and a cluster bus. This project models the parts of all of these whose correctness takes an
argument, and proves that argument in Dafny 4.11. `dafny verify dfyconfig.toml` checks it.

- **Checked errors** (`TryCatch*`). A structured reading of `@try`/`@catch`, the C subset the pass emits, the pass with
  its fresh-name supply and reports, and the proof that the emitted gotos mean what the structured reading means.
- **Deferred statements** (`Defer*`). The structured reading of `defer`, the flags and cleanup tail, and the same proof.
- **Splicing** (`MappedText`, `MappedAstEmitter`, `MappedSplice`). Text with origins, the tree-directed and the flat
  emitter, and their equivalence.
- **Method calls** (`MethodCall*`). The rewrite by spans, the call trees the spans describe, and their equivalence
  through the whole pass.
- **Other compiler parts.** The import graph (`SourceOrder`, `ImportGraph*`), the annotation rewriter
  (`AnnotationHygiene`), compiler options (`CompilerOptions`), the C emitter (`CEmitter`, `CEmission`) and the lowering
  pipeline (`LoweringPipeline`).
- **The language client** (`Lsp*`). The frame decoder and the life of requests, crashes, restarts and disposal.
- **The allocator** (`Malloc*`). Boundary tags, binned free lists and the bitmap, for one thread.
- **The cluster bus** (`Cluster*`). Slots and epochs on one node, and elections over a whole cluster.

What changes fields in the source is a class here whose methods are proved against functions of the old state; the laws
are lemmas about those functions. The steps of many nodes, or of an event loop, are runs over values.

## Where code and promise part

- `documentation/spec/SPEC.errors.md` says that assigning the result of an error-returning call leaves it to manual
  handling. The pass reports it instead (lines 194-213 of the pass); the model follows the pass.
- A checked call is replaced by two or three statements without braces around them (lines 214-229 of the pass). Under an
  `if` or a loop without braces only the first stays in its place: an error-out call is then made whatever the condition
  is, a loop goes on after a status, and an `else` belongs to the status test; in a `do` loop or in the declaration that
  starts a `for` loop the result is no C. `TryCatchBare.BareIfIff`, `BareLoopIff` and `BareForIff` say exactly when such
  a statement keeps its meaning; `MisplacedCall`, `MisplacedOther`, `MisplacedElse`, `LeakingWhile` and `LeakingFor` are
  the runs that go wrong.
- An election's vote counter is cleared when the election is rescheduled, but its epoch only changes when the next one
  starts (lines 2901-2906 and 2964-2970 of `cluster.c`). A vote arriving in between is counted for the next epoch:
  `ClusterLateVotes.LateVotesElectTwo` is a run with two winners in one epoch. `ClusterVotes.DeliveryKeepsTally` shows
  that exactly these late votes spoil the counter, and `ClusterVotes.OneWinnerPerEpoch` that without them no epoch has
  two winners.
- A node's own configuration epoch can fall when a packet carries one beyond its current epoch and a collision follows:
  `ClusterFailures.EpochFalls`. `ClusterSlots.Cluster.SettleClash` gives the exact condition.
- `clusterUpdateSlotsConfigWith` reads the slot count of this node's master even if it is a replica without a master and
  an unbound slot is claimed. `CLUSTER FORGET` refuses to forget one's own master, but a master that was still in
  handshake when `CLUSTER REPLICATE` named it is forgotten when the handshake times out:
  `ClusterFailures.ClaimWithoutMaster`. `ClusterSlots.Cluster.UpdateSlotsConfigWith` says exactly when.
- `clusterSetMaster` asserts that this node serves no slot (line 3800), but `CLUSTER ADDSLOTS` binds slots to a replica as
  well (lines 4113-4160), and the next claim that takes its master's last slot makes the assertion fail:
  `ClusterFailures.ClaimAtServingReplica` is such a run, and `ClusterTables.StillServesIff` the exact condition.
- A pending request whose cancel notification cannot be written, because the write throws, is forgotten without its promise being rejected (lines
  170-190 of `lspClient.ts`); `LspLifecycle.FailedWriteDropsPromise` is such a run, and `LspLifecycle.DropsAreFailedWrites`
  shows that nothing else leaves a promise unsettled.
- Merging options twice is not merging once when the base ends in a flag whose value is missing and something is added
  (`CompilerOptions.DanglingExample`), unless the added options are flags that take themselves
  (`CompilerOptions.DanglingEscapes`); `CompilerOptions.MergeAgainIff` is the exact condition for all inputs.

## Model

| member | source | states |
|---|---|---|
| `TryCatchMeaning.LoweringPreservesMeaning` | compiler/src/main/kotlin/cplus/CPlusTryCatchLoweringPass.kt:70-232 | for every function body the pass accepts whose parts without braces fit (the condition the next three rows show exact for one statement), with if, while, do, for and switch statements whose parts may have braces or not, every environment and every fuel: the emitted text is C throughout; its status variables, labels and gotos diverge exactly when the structured reading does, and otherwise make the same calls in the same order, leave the program variables the same and end in the same way; no status escapes and no generated variable is left changed |
| `TryCatchBare.BareIfIff` | compiler/src/main/kotlin/cplus/CPlusTryCatchLoweringPass.kt:160-229 | an if of complete statements, ifs and loops without braces, whose branches keep their meaning, is emitted as C and keeps its own meaning in every environment exactly when no branch is itself a checked error-out call and, if there is an else, the first branch has no checked call at all, however deep |
| `TryCatchBare.BareLoopIff` | compiler/src/main/kotlin/cplus/CPlusTryCatchLoweringPass.kt:160-229 | a while or do loop of the same kind keeps its meaning exactly when its body has no checked call, however deep: while (a) if (b) f(); does not |
| `TryCatchBare.BareForIff` | compiler/src/main/kotlin/cplus/CPlusTryCatchLoweringPass.kt:160-229 | a for loop of the same kind keeps its meaning exactly when neither its body nor the declaration it starts with has a checked call; the latter would put three statements between the parentheses |
| `TryCatchBare.MisplacedElse` | compiler/src/main/kotlin/cplus/CPlusTryCatchLoweringPass.kt:228-229 | the else after a first branch with a checked call becomes the else of the status test and runs after a successful call |
| `TryCatchBare.LeakingWhile` | compiler/src/main/kotlin/cplus/CPlusTryCatchLoweringPass.kt:228-229 | the status test of a checked call in a body without braces stands behind the loop, which tests its condition once more after the status, or makes an error-out call although its condition is false |
| `TryCatchMeaning.StmtsAreC` | compiler/src/main/kotlin/cplus/CPlusTryCatchLoweringPass.kt:139-230 | where parts without braces fit, every status test stays with its call and no else changes its if, so what is emitted is C |
| `TryCatchMeaning.CasesCorrespond` | compiler/src/main/kotlin/cplus/CPlusTryCatchLoweringPass.kt:139-152 | a switch entered at any case label: the label is found wherever the statements before it have moved it, and control falls through the emitted sections as through the source |
| `TryCatchMeaning.TryCorresponds` | compiler/src/main/kotlin/cplus/CPlusTryCatchLoweringPass.kt:88-127 | one @try: the first nonzero status leaves the body at once and reaches the dispatch with its value in the status variable |
| `TryCatchMeaning.ArmsCorrespond` | compiler/src/main/kotlin/cplus/CPlusTryCatchLoweringPass.kt:102-122 | the first matching arm in source order runs, an unmatched status goes to the nearest enclosing handler, and what an arm raises goes to the enclosing @try, never back to its own |
| `TryCatchMeaning.CheckedCorresponds` | compiler/src/main/kotlin/cplus/CPlusTryCatchLoweringPass.kt:214-229 | a checked call is emitted as the call, the store of its status and a jump exactly when that status is not zero, for both calling conventions |
| `TryCatchMeaning.Accepted` | compiler/src/main/kotlin/cplus/CPlusTryCatchLoweringPass.kt:70-212 | the pass reports nothing exactly on the programs whose @try statements are braced, have arms with bindings, have a catch-all only last (and at the outermost level do have one), and whose calls are checkable |
| `TryCatchMeaning.CheckableStatements` | compiler/src/main/kotlin/cplus/CPlusTryCatchLoweringPass.kt:160-212 | a statement passes without report exactly when at most one of its calls is not handled by hand and that one stands alone or has the right argument count |
| `TryCatchMeaning.AssignedStatusIsRejected` | compiler/src/main/kotlin/cplus/CPlusTryCatchLoweringPass.kt:194-213 | an error-returning call whose result is assigned is reported, although the language document calls it manual handling |
| `TryCatchPass.CPlusTryCatchLoweringPass.Fresh` | compiler/src/main/kotlin/cplus/CPlusTryCatchLoweringPass.kt:270-275 | the name is the first one, counting on from the serial, that is not reserved, and it is reserved |
| `TryCatchPass.CPlusTryCatchLoweringPass.LowerTry` | compiler/src/main/kotlin/cplus/CPlusTryCatchLoweringPass.kt:70-127 | the emitted statement, the new names, the serial and the reports are those of the specification that the meaning theorem is about |
| `TryCatchPass.CPlusTryCatchLoweringPass.CheckStatement` | compiler/src/main/kotlin/cplus/CPlusTryCatchLoweringPass.kt:160-230 | the loop over the throwing calls of a statement finds the one call to check and reports every other problem in order |
| `TryCatchPass.CPlusTryCatchLoweringPass.LowerCatches` | compiler/src/main/kotlin/cplus/CPlusTryCatchLoweringPass.kt:94-122 | the recursion over the arms builds the dispatch chain of the specification |
| `TryCatchPass.CPlusTryCatchLoweringPass.Lower` | compiler/src/main/kotlin/cplus/CPlusTryCatchLoweringPass.kt:19-68 | a body with any report is left as it is; otherwise the result is the block of the specification |
| `FreshNames.NumberedInjective` | compiler/src/main/kotlin/cplus/CPlusTryCatchLoweringPass.kt:270-275 | different serials give different names |
| `ImportGraph.SourceImportGraph.Add` | compiler/src/main/kotlin/cplus/SourceImportGraph.kt:16-20 | adds exactly the edge, keeps the first edge between two sources, and answers with a path exactly when the importer was already reachable from what it imports; the path is closed and every hop is an edge of the updated graph |
| `ImportGraph.SourceImportGraph.FindPath` | compiler/src/main/kotlin/cplus/SourceImportGraph.kt:92-104 | finds a path exactly when there is one, although visited sources are never searched twice |
| `ImportGraph.OrderingIsRight` | compiler/src/main/kotlin/cplus/SourceImportGraph.kt:30-55 | an ordering returns normally exactly when the whole graph is acyclic; it then holds every source and root exactly once with each imported source before its importers, and otherwise the reported path is a cycle of the graph |
| `ImportGraph.OrderingIsCanonical` | compiler/src/main/kotlin/cplus/SourceImportGraph.kt:30-55 | the canonical ordering depends only on the sets of edges and roots, not on the order of insertion |
| `ImportGraph.SourceImportGraph.DependencyOrder` | compiler/src/main/kotlin/cplus/SourceImportGraph.kt:30-55 | the depth-first search with three states computes the canonical ordering |
| `ImportGraph.SourceImportGraph.DependencyOrderInInsertionOrder` | compiler/src/main/kotlin/cplus/SourceImportGraph.kt:65-90 | the same search without sorting, roots first, computes the insertion ordering |
| `ImportGraph.DependencySearch.VisitOne` | compiler/src/main/kotlin/cplus/SourceImportGraph.kt:37-51 | one visit updates the states, the path and the result as the functional search does |
| `ImportGraphSpec.VisitIsSound` | compiler/src/main/kotlin/cplus/SourceImportGraph.kt:37-51 | a visit keeps the result topologically ordered and the path a path, and a source met twice on the path closes a cycle |
| `ImportGraphSpec.SearchDecidesAcyclicity` | compiler/src/main/kotlin/cplus/SourceImportGraph.kt:53-54 | the search over all vertices succeeds exactly on acyclic relations |
| `ImportGraphSpec.EdgeClosesCycle` | compiler/src/main/kotlin/cplus/SourceImportGraph.kt:16-20 | adding an edge to an acyclic graph makes a cycle exactly when its importer was reachable from its target |
| `ImportGraphSpec.UnclosedHistoryIsAcyclic` | compiler/src/main/kotlin/cplus/SourceImportGraph.kt:14-20 | edges added one by one leave an acyclic graph exactly when none of them was reachable backwards at its addition |
| `ImportGraph.SourceImportGraph.AddAll` | compiler/src/main/kotlin/cplus/SourceImportGraph.kt:16-20 | a history of additions to an empty graph: each answer is a path exactly when its edge closed a cycle, and is a cycle of the graph of that moment |
| `ImportGraph.BuildAndOrder` | compiler/src/main/kotlin/cplus/SourceImportGraph.kt:14-90 | adding any list of edges and ordering the result: both orderings succeed exactly when no addition reported a path, which is exactly when the graph is acyclic; they then put imports before importers, and otherwise name a cycle |
| `SourceOrder.SortedIsCanonical` | compiler/src/main/kotlin/cplus/SourceImportGraph.kt:31-32 | sorting distinct sources gives one list for each set |
| `MallocBins.BinIndexAscends` | parser-tree-sitter/upstream/examples/malloc.c:114-128 | the bin index never falls as the size grows |
| `MallocBins.BinIndexUpIsSafe` | parser-tree-sitter/upstream/examples/malloc.c:121-137 | a chunk in a bin at or above bin_index_up(n) has at least n units |
| `MallocBins.TableIsBinTab` | parser-tree-sitter/upstream/examples/malloc.c:114-119 | the sixty entries of the table |
| `Malloc.AdjustSize` | parser-tree-sitter/upstream/examples/malloc.c:208-222 | which requests are refused, and the rounding of the others: room for header and payload, and less than one unit to spare; the wrap-around of n - 1 at zero is written out |
| `Malloc.Heap64.Malloc` | parser-tree-sitter/upstream/examples/malloc.c:320-367 | a block is a chunk that was not in use, with exactly the adjusted size; all other blocks keep their size and contents; the heap invariant holds again; and exactly when there is a block |
| `Malloc.Heap64.Free` | parser-tree-sitter/upstream/examples/malloc.c:451-532 | exactly the released block stops being in use, all others keep their size and contents, and the heap invariant holds again, so the chunk has merged with its free neighbours and is listed in the bin of its size |
| `Malloc.Heap64.Realloc` | parser-tree-sitter/upstream/examples/malloc.c:380-449 | the contents survive up to the smaller size, in place when the block shrinks, else in place or moved; the other blocks are untouched; a failing call loses nothing |
| `Malloc.Heap64.Trim` | parser-tree-sitter/upstream/examples/malloc.c:302-318 | gives back what exceeds the request and keeps the rest of the block |
| `Malloc.Heap64.Pretrim` | parser-tree-sitter/upstream/examples/malloc.c:272-300 | splits a chunk still in its list and puts the rest in its place, when the rest belongs to the same bin |
| `Malloc.Heap64.AllocFwd` | parser-tree-sitter/upstream/examples/malloc.c:234-249 | takes the chunk that starts at a place exactly when it is free |
| `Malloc.Heap64.AllocRev` | parser-tree-sitter/upstream/examples/malloc.c:251-266 | takes the chunk that ends at a place exactly when it is free |
| `Malloc.Heap64.UnbinChunk` | parser-tree-sitter/upstream/examples/malloc.c:224-232 | unlinks a free chunk from its list and clears the bit of the bin exactly when the list becomes empty |
| `Malloc.Heap64.ExpandHeap` | parser-tree-sitter/upstream/examples/malloc.c:162-206 | new pages prolong the last segment or open a new one between a zero header and a sentinel, and are one chunk in use |
| `Malloc.Heap64.Coalesce` | parser-tree-sitter/upstream/examples/malloc.c:477-505 | takes free neighbours until none is left on either side |
| `Malloc.Heap64.Memcpy` | parser-tree-sitter/upstream/examples/malloc.c:442-447 | copies the words of one block into another and nothing else |
| `MallocSteps.UnbinIsGood` | parser-tree-sitter/upstream/examples/malloc.c:224-232 | the invariant of the whole heap survives taking a chunk out of its list |
| `MallocSteps.MergeIsGood` | parser-tree-sitter/upstream/examples/malloc.c:234-266 | merging a run of chunks in use keeps tiling, size words, lists and bitmap |
| `MallocSteps.SplitIsGood` | parser-tree-sitter/upstream/examples/malloc.c:302-318 | splitting a chunk keeps them too |
| `MallocSteps.PretrimIsGood` | parser-tree-sitter/upstream/examples/malloc.c:272-300 | and so does splitting a chunk inside its list |
| `MallocSteps.ReleaseIsGood` | parser-tree-sitter/upstream/examples/malloc.c:507-517 | filing a chunk at the end of the list of its size keeps them |
| `MallocSteps.GrowthIsGood` | parser-tree-sitter/upstream/examples/malloc.c:162-206 | new pages keep them |
| `MallocSteps.PayloadIsGood` | parser-tree-sitter/upstream/examples/malloc.c:442-447 | writing inside a block changes no header and no link |
| `MallocHeap.RingRemove` | parser-tree-sitter/upstream/examples/malloc.c:224-232 | unlinking from a circular list leaves a circular list of the others |
| `MallocSteps.RingAppend` | parser-tree-sitter/upstream/examples/malloc.c:514-517 | linking at the tail leaves a circular list with the chunk last |
| `ClusterBitmap.OneBitChanges` | parser-tree-sitter/upstream/examples/cluster.c:3499-3517 | setting or clearing one slot changes that bit of the bitmap and no other |
| `ClusterSlots.Cluster.AddSlot` | parser-tree-sitter/upstream/examples/cluster.c:3578-3583 | binds an unbound slot and refuses a bound one; bits and counters of all nodes stay those of the slot table |
| `ClusterSlots.Cluster.DelSlot` | parser-tree-sitter/upstream/examples/cluster.c:3588-3595 | unbinds a slot; the bit that the source asserts was set |
| `ClusterSlots.Cluster.DelNodeSlots` | parser-tree-sitter/upstream/examples/cluster.c:3599-3607 | unbinds exactly the slots of the node |
| `ClusterSlots.Cluster.AddNode` | parser-tree-sitter/upstream/examples/cluster.c:864-870 | enters a node without slots exactly when its name is not taken, and changes nothing else |
| `ClusterSlots.Cluster.DelNode` | parser-tree-sitter/upstream/examples/cluster.c:839-910 | unbinds and un-imports exactly the slots of the node, detaches exactly its replicas, this node included, and changes nothing else |
| `ClusterSlots.Cluster.SetMaster` | parser-tree-sitter/upstream/examples/cluster.c:3798-3810 | turns this node into a replica without slots and clears its imports exactly when it was a master |
| `ClusterSlots.Cluster.UpdateSlotsConfigWith` | parser-tree-sitter/upstream/examples/cluster.c:1506-1594 | everything this node knows afterwards, as a function of what it knew and of the claim: exactly the claimed slots that are not being imported and are unbound or owned under an older epoch move; this node follows the sender exactly when its master lost its last slot to it and it serves none itself; exactly the keys of lost slots are deleted unless it does; and, from the inputs alone, exactly when the source reads a missing master, and exactly when it fails its assertion |
| `ClusterTables.ClaimRebinds` | parser-tree-sitter/upstream/examples/cluster.c:1529-1566 | claims only ever move a slot away from an owner with a strictly smaller epoch |
| `ClusterTables.DemotedFollowsAnOwner` | parser-tree-sitter/upstream/examples/cluster.c:1568-1582 | whoever changes its role follows a node that owns a slot, and its old master owns none |
| `ClusterTables.FollowersOwnNothing` | parser-tree-sitter/upstream/examples/cluster.c:1568-1582 | a claim never binds a slot to this node, and a node that changes its role owns no slot afterwards; it changes its role exactly when its master lost its last slot to the claim and it serves none itself |
| `ClusterTables.StillServesIff` | parser-tree-sitter/upstream/examples/cluster.c:1575-1579 | the assertion of clusterSetMaster fails on a claim exactly when this node is a replica, all slots of its master go to the claim, there is at least one, and a slot of its own does not |
| `ClusterTables.KeysFollowSlots` | parser-tree-sitter/upstream/examples/cluster.c:1511-1594 | a master that keeps keys only for its own slots still does so when it stays a master, and only keys of slots that went to the sender are deleted |
| `ClusterTables.TakenFromNobody` | parser-tree-sitter/upstream/examples/cluster.c:1524-1582 | a claim takes unbound slots exactly when some claimed slot is unbound and not being imported |
| `ClusterTables.RepeatedClaim` | parser-tree-sitter/upstream/examples/cluster.c:1880-1896 | a claim that repeats the known bitmap would change nothing, so skipping it is right |
| `ClusterFailures.ClaimWithoutMaster` | parser-tree-sitter/upstream/examples/cluster.c:1524-1582 | a node that replicates a node still in handshake (4411-4447) loses its master when the handshake times out (3251-3256, 844-845); the next claim of an unbound slot then makes the source read the slot count of a missing master |
| `ClusterFailures.ClaimAtServingReplica` | parser-tree-sitter/upstream/examples/cluster.c:1575-1579 | a replica that was given a slot by CLUSTER ADDSLOTS (4113-4160, which asks for no role) hears that its master lost its last slot: the assertion that it serves no slot (3800) fails |
| `ClusterSlots.Cluster.FailoverReplaceYourMaster` | parser-tree-sitter/upstream/examples/cluster.c:2794-2822 | a promoted replica owns exactly what its master owned besides what it had |
| `ClusterSlots.Cluster.SwitchToReplica` | parser-tree-sitter/upstream/examples/cluster.c:1843-1868 | a master that announces itself as a replica loses exactly its slots |
| `ClusterSlots.Cluster.HandleConfigEpochCollision` | parser-tree-sitter/upstream/examples/cluster.c:1055-1070 | of two masters with one epoch exactly the one with the smaller name moves to a new epoch |
| `ClusterSlots.Cluster.SettleClash` | parser-tree-sitter/upstream/examples/cluster.c:1940-1948 | this node's configuration epoch falls exactly when it clashes and the current epoch was more than one behind it |
| `ClusterFailures.EpochFalls` | parser-tree-sitter/upstream/examples/cluster.c:1940-1948 | an UPDATE about this node with epoch 100 in a packet of epoch 1, and then an announcement with epoch 100: its own configuration epoch falls from 100 to 2 |
| `ClusterSlots.Cluster.SeeHeader` | parser-tree-sitter/upstream/examples/cluster.c:1664-1677 | a header never takes an epoch back, and bounds stay bounds when its configuration epoch does not exceed its current epoch |
| `ClusterSlots.Cluster.ReceivePing` | parser-tree-sitter/upstream/examples/cluster.c:1835-1948 | slots, imports, epochs, own role and the sender's role afterwards, exactly, with the clash of epochs; a bound slot that changes hands goes to a strictly newer configuration; and no bound slot gets an older one when configuration epochs do not exceed current epochs |
| `ClusterSlots.Cluster.ReceiveUpdate` | parser-tree-sitter/upstream/examples/cluster.c:2022-2043 | a reported configuration is taken over exactly when it is newer, with the role and the slots it claims, and no bound slot ever gets an older configuration |
| `ClusterTables.AnnouncementMovesUp` | parser-tree-sitter/upstream/examples/cluster.c:1835-1896 | what an announcement does to the table moves slots only to newer configurations |
| `ClusterTables.UpdateMovesUp` | parser-tree-sitter/upstream/examples/cluster.c:2022-2043 | and so does an UPDATE |
| `ClusterElection.ElectionState.SendFailoverAuthIfNeeded` | parser-tree-sitter/upstream/examples/cluster.c:2594-2694 | the loops and tests compute the vote step that ClusterVotes.OneVotePerEpoch and ClusterVotes.StepIsSane are about: granted, recorded and sent exactly under the conditions of the source |
| `ClusterElection.ElectionState.HandleSlaveFailover` | parser-tree-sitter/upstream/examples/cluster.c:2832-2997 | the branches compute the election step that ClusterVotes.OneWinnerPerEpoch and ClusterLateVotes.LateVotesElectTwo are about |
| `ClusterElection.ElectionState.ProcessPacket` | parser-tree-sitter/upstream/examples/cluster.c:1664-2009 | the packet step that ClusterVotes.DeliveryKeepsTally is about: the header's epoch, the counting of votes and the answer to requests |
| `ClusterVotes.OneVotePerEpoch` | parser-tree-sitter/upstream/examples/cluster.c:2610-2691 | in every run two acknowledgements of one master for one epoch are the same packet, and no vote is for an epoch the master has not reached |
| `ClusterVotes.StepIsSane` | parser-tree-sitter/upstream/examples/cluster.c:2594-2694 | every step of every node keeps: last vote and last election no newer than the current epoch, and rising epochs in each master's votes |
| `ClusterVotes.DeliveryKeepsTally` | parser-tree-sitter/upstream/examples/cluster.c:1997-2009 | counting an arriving vote keeps the counter equal to the votes received for the running election exactly when the vote does not arrive after its candidate rescheduled |
| `ClusterVotes.VotersAreDistinct` | parser-tree-sitter/upstream/examples/cluster.c:2610-2691 | the votes for one epoch come from different masters |
| `ClusterVotes.MajoritiesMeet` | parser-tree-sitter/upstream/examples/cluster.c:2835-2835 | two quorums of one electorate share a voter |
| `ClusterVotes.OneWinnerPerEpoch` | parser-tree-sitter/upstream/examples/cluster.c:2832-2997 | when those that count votes, and those that win, see one electorate per epoch and no vote is late, no epoch has two winners in any run |
| `ClusterLateVotes.LateVotesElectTwo` | parser-tree-sitter/upstream/examples/cluster.c:2901-2997 | a run in which late votes count twice and two replicas win one epoch, although all agree on the electorate |
| `LspFraming.Connection.Consume` | vscode-cplus/src/lspClient.ts:339-365 | one call of the decoder delivers, keeps and fails as draining the joined buffer does |
| `LspFraming.Connection.Write` | vscode-cplus/src/lspClient.ts:404-409 | one message is framed by the byte length of its body |
| `LspFraming.ContentLengthIsFirst` | vscode-cplus/src/lspClient.ts:348-348 | the length is read from the first header line that has one: the name in any case, white space, digits to the end of the line |
| `LspFraming.DrainAppend` | vscode-cplus/src/lspClient.ts:339-365 | draining in two instalments delivers what draining at once delivers |
| `LspFraming.CutsDoNotMatter` | vscode-cplus/src/lspClient.ts:339-365 | a stream that trips neither limit is delivered the same however it is cut |
| `LspFraming.ModerateIsExact` | vscode-cplus/src/lspClient.ts:344-357 | the condition on the stream is exact: fed byte by byte, a stream is given up exactly when it does not meet it |
| `LspFraming.RoundTrip` | vscode-cplus/src/lspClient.ts:339-409 | bodies of up to 16 MiB, framed and cut anywhere, arrive unchanged and in order |
| `LspLifecycle.PromisesAreAccounted` | vscode-cplus/src/lspClient.ts:163-193 | in every reachable state an id is pending exactly while its promise is neither settled nor dropped, each promise is settled by at most one call, at most 128 are pending, none without a child, and no id is handed out twice |
| `LspLifecycle.DropsAreFailedWrites` | vscode-cplus/src/lspClient.ts:170-190 | a promise is left unsettled exactly when the cancel notification of its timeout or cancellation could not be written |
| `LspLifecycle.FailedWriteDropsPromise` | vscode-cplus/src/lspClient.ts:170-190 | such a run: a client starts, its first request times out, the notification cannot be written, and the promise stays unsettled for good |
| `LspLifecycle.NoSpawnAfterDispose` | vscode-cplus/src/lspClient.ts:77-86 | no event spawns a child after disposal |
| `LspLifecycle.AutomaticRestartsAreBounded` | vscode-cplus/src/lspClient.ts:427-443 | automatic restarts number at most one more than manual ones |
| `LspLifecycle.StepIsGood` | vscode-cplus/src/lspClient.ts:139-443 | every event keeps all of these, with ids that only rise |
| `LspLifecycle.CPlusLspClient.Request` | vscode-cplus/src/lspClient.ts:163-193 | computes its step of the runs that LspLifecycle.StepIsGood and LspLifecycle.PromisesAreAccounted are about: which requests are refused, which id is used up, and what a failing write does |
| `LspLifecycle.CPlusLspClient.Receive` | vscode-cplus/src/lspClient.ts:394-401 | computes its step of the runs that LspLifecycle.StepIsGood and LspLifecycle.PromisesAreAccounted are about: an answer settles the pending promise of its id and no other, and is ignored when there is none |
| `LspLifecycle.CPlusLspClient.Expire` | vscode-cplus/src/lspClient.ts:170-186 | computes its step of the runs that LspLifecycle.StepIsGood and LspLifecycle.PromisesAreAccounted are about: a timeout or cancellation withdraws the pending promise of its id and rejects it after the server was told |
| `LspLifecycle.CPlusLspClient.OnTimer` | vscode-cplus/src/lspClient.ts:436-441 | computes its step of the runs that LspLifecycle.StepIsGood and LspLifecycle.PromisesAreAccounted are about: the restart timer starts a child once |
| `LspLifecycle.CPlusLspClient.Fail` | vscode-cplus/src/lspClient.ts:411-416 | computes its step of the runs that LspLifecycle.StepIsGood and LspLifecycle.PromisesAreAccounted are about: rejects exactly the pending promises, oldest first |
| `LspLifecycle.CPlusLspClient.OnExit` | vscode-cplus/src/lspClient.ts:427-443 | computes its step of the runs that LspLifecycle.StepIsGood and LspLifecycle.PromisesAreAccounted are about: only the current child's exit counts, and at most one crash restart is scheduled |
| `LspLifecycle.CPlusLspClient.Restart` | vscode-cplus/src/lspClient.ts:139-152 | computes its step of the runs that LspLifecycle.StepIsGood and LspLifecycle.PromisesAreAccounted are about: a manual restart rejects what is pending, reopens the crash window and starts a new child |
| `LspLifecycle.CPlusLspClient.Dispose` | vscode-cplus/src/lspClient.ts:299-311 | computes its step of the runs that LspLifecycle.StepIsGood and LspLifecycle.PromisesAreAccounted are about: disposal rejects what is pending and cancels the restart timer |
| `MappedText.MappedTextBuilder.Append` | compiler/src/main/kotlin/cplus/SourceMapping.kt:153-156 | appends exactly the slice, characters and origins, and refuses a slice out of bounds |
| `MappedAstEmitter.CPlusMappedAstEmitter.Emit` | compiler/src/main/kotlin/cplus/CPlusMappedAstEmitter.kt:11-56 | the recursion over sorted children emits the specified text, or refuses overlapping or escaping children |
| `MappedAstEmitter.CPlusMappedAstEmitter.EmitEdits` | compiler/src/main/kotlin/cplus/CPlusMappedAstEmitter.kt:58-76 | the loop over sorted edits splices them, or refuses overlaps |
| `MappedSplice.TreeIsSplice` | compiler/src/main/kotlin/cplus/CPlusMappedAstEmitter.kt:11-76 | tree-directed emission equals flat splicing of the outermost replaced nodes and the remaining insertions over the root's span; nodes without text are ignored |
| `MappedSplice.EmitsIffTidy` | compiler/src/main/kotlin/cplus/CPlusMappedAstEmitter.kt:40-53 | emission succeeds exactly on trees whose covering children follow one another inside their parents |
| `MappedSplice.EditsSorted` | compiler/src/main/kotlin/cplus/CPlusMappedAstEmitter.kt:58-62 | the edits of a tree come in the order into which flat splicing sorts them |
| `MappedSplice.UnchangedIsSource` | compiler/src/main/kotlin/cplus/CPlusMappedAstEmitter.kt:11-56 | without changes the text is the source slice, every character with its origin |
| `MappedText.SortKeepsSorted` | compiler/src/main/kotlin/cplus/CPlusMappedAstEmitter.kt:38-40 | sorting by span leaves a list that is in order as it is |
| `MethodCallTrees.RangeTextIsPrinted` | compiler/src/main/kotlin/cplus/CPlusMethodCallLoweringPass.kt:56-123 | for all calls that are nested or apart, with different spans, the mutual recursion over ranges ends and prints the bottom-up rewrite of the tree of calls |
| `MethodCallTrees.GrownIsRight` | compiler/src/main/kotlin/cplus/CPlusMethodCallLoweringPass.kt:97-123 | every such set of calls has its trees: each call once, in the receiver or the arguments of the calls around it or in text that is dropped |
| `MethodCallTrees.NestedIsRoots` | compiler/src/main/kotlin/cplus/CPlusMethodCallLoweringPass.kt:107-115 | filtering the calls of a range for those no other call contains, and sorting, finds the roots of the trees in order |
| `MethodCallPass.CPlusMethodCallLoweringPass.LowerCall` | compiler/src/main/kotlin/cplus/CPlusMethodCallLoweringPass.kt:56-94 | name, receiver, its address operator and parentheses, separator and arguments, or a refusal |
| `MethodCallPass.CPlusMethodCallLoweringPass.AppendRange` | compiler/src/main/kotlin/cplus/CPlusMethodCallLoweringPass.kt:97-123 | copies the text between nested calls and rewrites each once |
| `MethodCallPass.CPlusMethodCallLoweringPass.Lower` | compiler/src/main/kotlin/cplus/CPlusMethodCallLoweringPass.kt:7-54 | which calls are replaced and which diagnostics leave the file as it is |
| `MethodCallFiles.FileIsPrinted` | compiler/src/main/kotlin/cplus/CPlusMethodCallLoweringPass.kt:7-54 | through the tree emitter the whole file becomes the print of its rewritten call trees; if some call is malformed the file stays as it is with a diagnostic |
| `MethodCallFiles.EmittedIsRange` | compiler/src/main/kotlin/cplus/CPlusMethodCallLoweringPass.kt:31-47 | emitting the tree with the outermost calls replaced is rewriting the whole range |
| `DeferMeaning.DeferIsPreserved` | compiler/src/main/kotlin/cplus/CPlusDeferLoweringPass.kt:26-166 | for every function and @test, flags and cleanup tail make the same calls, leave the program variables the same and end in the same way as the structured reading of defer, in which each pass that reaches the closing brace runs exactly the deferred statements it registered |
| `DeferMeaning.BodyCorrespondence` | compiler/src/main/kotlin/cplus/CPlusDeferLoweringPass.kt:87-153 | the same for every pass of every owning body, loop bodies included, which leaves no flag behind |
| `DeferSource.CleanupTrace` | compiler/src/main/kotlin/cplus/CPlusDeferLoweringPass.kt:131-136 | cleanup runs exactly the registered statements, each once, in reverse source order |
| `DeferMeaning.FlagsAreFresh` | compiler/src/main/kotlin/cplus/CPlusDeferLoweringPass.kt:63-81 | flags differ from each other and do not occur in the source text |
| `DeferLowering.CPlusDeferLoweringPass.NextFlag` | compiler/src/main/kotlin/cplus/CPlusDeferLoweringPass.kt:75-78 | the do-while loop ends at the first number whose flag the text does not contain |
| `DeferLowering.CPlusDeferLoweringPass.Lower` | compiler/src/main/kotlin/cplus/CPlusDeferLoweringPass.kt:52-111 | a defer outside all functions, or inside another, leaves the file as it is |
| `AnnotationHygiene.RewriteCPlusAnnotationMacros` | compiler/src/main/kotlin/cplus/CPlusAnnotationHygiene.kt:17-64 | the loop ends, on unterminated literals and comments too, and rewrites token by token: words of the table outside literals and comments become macros, every other character is copied with its origin |
| `AnnotationHygiene.RewriteIsIdempotent` | compiler/src/main/kotlin/cplus/CPlusAnnotationHygiene.kt:17-64 | applying it twice is applying it once, origins included |
| `AnnotationHygiene.TokenAgain` | compiler/src/main/kotlin/cplus/CPlusAnnotationHygiene.kt:22-62 | a rewritten token followed by the rewritten rest is one token again, of the same kind |
| `CompilerOptions.Merge` | compiler/src/main/kotlin/cplus/CompilerOptions.kt:12-19 | the loop appends each new group once |
| `CompilerOptions.MergedGroups` | compiler/src/main/kotlin/cplus/CompilerOptions.kt:12-19 | the base stays a prefix, and behind it each new logical option stands once in first-occurrence order, when the base does not end in a dangling paired flag |
| `CompilerOptions.MergeAgain` | compiler/src/main/kotlin/cplus/CompilerOptions.kt:12-19 | merging the same additions again changes nothing when the base does not end in a dangling paired flag |
| `CompilerOptions.MergeAgainIff` | compiler/src/main/kotlin/cplus/CompilerOptions.kt:12-34 | for all inputs, merging twice is merging once exactly when the base does not end in a dangling flag, or nothing is added, or all added options are flags with flags for values that are, as a set, the pairs they form when the dangling flag shifts them by one |
| `CompilerOptions.DanglingKeepsIff` | compiler/src/main/kotlin/cplus/CompilerOptions.kt:21-34 | behind a dangling flag a merge keeps every option whole under exactly the same condition |
| `CompilerOptions.DanglingTakesArgument` | compiler/src/main/kotlin/cplus/CompilerOptions.kt:21-34 | when some added option is not a flag with a flag for its value, a dangling flag spoils the second merge |
| `CompilerOptions.DanglingExample` | compiler/src/main/kotlin/cplus/CompilerOptions.kt:21-34 | a base of one dangling flag and one new file |
| `CompilerOptions.DanglingEscapes` | compiler/src/main/kotlin/cplus/CompilerOptions.kt:21-34 | a dangling flag and a new option that is the same flag twice: merging again changes nothing |
| `CompilerOptions.DistinctIsIdempotent` | compiler/src/main/kotlin/cplus/CompilerOptions.kt:10-19 | dropping repeated options twice is dropping them once |
| `CompilerOptions.GroupsOfFlat` | compiler/src/main/kotlin/cplus/CompilerOptions.kt:21-34 | options put side by side fall into the same groups again |
| `CEmission.EmissionIsTerminals` | compiler/src/main/kotlin/cplus/CPlusAstCEmitter.kt:90-221 | on any tree with properly nested spans the emitted C is the text of every terminal, with origins, once and in source order, and between them generated spaces and line ends only |
| `CEmission.LinesAreKept` | compiler/src/main/kotlin/cplus/CPlusAstCEmitter.kt:166-213 | at the position of every token in the whole emitted text stands its source text; before a preprocessor region the text is empty or ends a line, and a line end closes the region or follows it; a line end also follows every line comment |
| `CEmission.TokensAreTerminals` | compiler/src/main/kotlin/cplus/CPlusAstCEmitter.kt:91-123 | the collected tokens are exactly the terminals, literals and preprocessor regions |
| `CEmitter.CPlusAstCEmitter.Emit` | compiler/src/main/kotlin/cplus/CPlusAstCEmitter.kt:125-221 | the layout loop computes the specified text |
| `LoweringPipeline.StepsSeeTheirText` | compiler/src/main/kotlin/cplus/CPlusAstLoweringPipeline.kt:71-118 | every step that runs sees a tree whose text is that of its mapped source, and its trace tells its lengths and whether it changed the source |
| `LoweringPipeline.TraceIsChained` | compiler/src/main/kotlin/cplus/CPlusAstLoweringPipeline.kt:71-128 | success means that every step ran once, in order, each output length feeding the next input |
| `LoweringPipeline.TraceNamesAreUnique` | compiler/src/main/kotlin/cplus/CPlusAstLoweringPipeline.kt:52-54 | no step leaves two entries in the trace |
| `LoweringPipeline.OriginsSurvive` | compiler/src/main/kotlin/cplus/CPlusAstLoweringPipeline.kt:71-128 | when every step keeps origins, every surviving origin points into the initial source |
| `LoweringPipeline.CPlusAstLoweringPipeline.Run` | compiler/src/main/kotlin/cplus/CPlusAstLoweringPipeline.kt:43-128 | the loop with its early returns computes the specified outcome |

## Left out

- TryCatchMeaning.LoweringPreservesMeaning: source text other than statements, calls and declarations is opaque to it and runs as the environment says. For a whole body the condition on parts without braces is sufficient only, since a statement that is never reached, or an empty `else {}`, may break it; it is exact for statements made of complete statements, `if` and loops. User labels, case labels inside nested statements and a `switch` without braces are outside the model.
- TryCatchPass.CPlusTryCatchLoweringPass.Lower: the spelling of the emitted C, indentation and the reports for a `@try` outside a function or a call with unbalanced parentheses are not modelled.
- DeferMeaning.DeferIsPreserved: switch statements, try/catch bodies as owners, and user labels are outside the model (a switch body that owns a defer tests flags whose initialisers stand before its first case label, and the store has no indeterminate values); `return`, `break`, `continue` and other jumps bypass the cleanup in the reading as in the code; a deferred statement is text that the environment runs at the closing brace.
- DeferLowering.CPlusDeferLoweringPass.Lower: the source reports a nested defer once for each owning body, the model once for the file; statements are a syntax tree, not spans of text, so indentation and placement of the inserted text are not modelled.
- MethodCallFiles.FileIsPrinted: takes spans as a parser gives them: the receiver before the argument list, children inside parents, and every resolved call an expression of the tree or reported missing; identifiers of receivers are ASCII as in the source's pattern.
- MappedAstEmitter.CPlusMappedAstEmitter.Emit: line and column numbers of spans, and the check that the tree's snapshot is the mapped text, are left to the caller.
- CEmission.EmissionIsTerminals: whether a space separates two tokens is a parameter, so nothing is claimed about joining tokens; incomplete and unlowered trees, which the source refuses before it collects tokens, are the caller's concern.
- LoweringPipeline.CPlusAstLoweringPipeline.Run: parser warnings and synthesized declarations are left out; after a parse error the returned source is ahead of the returned tree, and nothing is claimed about that tree.
- AnnotationHygiene.RewriteIsIdempotent: which characters are letters is a parameter; it is used only through facts true of every character table.
- ImportGraph.SourceImportGraph.DependencyOrder: source names compare by character; the source compares UTF-16 units, which orders some characters outside the basic plane differently. Locations of edges are opaque, and one thread at a time is taken from the synchronized methods.
- Malloc.Heap64.Malloc: addresses and sizes are multiples of the 32-byte unit, a size word is a size and a flag, and the bitmap is a set of bin numbers; locks, retry loops, mapped blocks above the threshold, `madvise` and `calloc` are not modelled, and new pages are whatever the caller says the system gave.
- Malloc.Heap64.Realloc: blocks with a mapping of their own, and `mremap`, are not modelled.
- ClusterSlots.Cluster.ReceivePing: gossip, failure reports, addresses, replication offsets, the UPDATE packets sent back and the migration flags are left out, which slots hold keys is an input, and a handshake node is one that is not a master; two nodes are the same exactly when they are the same object, and names are only compared.
- ClusterVotes.OneWinnerPerEpoch: what a node knows of the others is an arbitrary view at every step, agreed only where candidates count votes or win by them; restarts, hard reset, forced takeover and lost disks are left out, packets may be lost or reordered but not duplicated.
- ClusterElection.ElectionState.HandleSlaveFailover: whether the data is too old, the rank and the random delay are inputs; logging is left out.
- LspFraming.Connection.Consume: one child's stream; bodies stay bytes, and decoding them as text is left out.
- LspLifecycle.CPlusLspClient.Start: what follows the answer to `initialize`, document synchronization and diagnostics are left out; a spawn or a write that throws is an input.
- SourceMasker, the parser, name resolution, the `throws` and struct-method passes, test extraction and compile-time evaluation are not part of this model.
- Allocation hints, the command line, downloads, process launching and the editor's user interface are left out: heuristics and plumbing.
