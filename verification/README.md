# Verification of the symbolic observation graph builder

A symbolic observation graph (SOG) is a deterministic graph that abstracts the behaviour of a Petri
net whose transitions are split into observable and unobservable ones.  Each node, an *aggregate*, is a
set of markings closed under unobservable firings, stored as a hash-consed list decision diagram;
edges are observable transitions.  This Dafny project models the builder, layer by layer, and proves
what the layers promise each other.

| files | what they model |
|---|---|
| `Words`, `Slots`, `ProbeWalk`, `UniqueTable` | packed node words; the open-addressed unique table with its bitmap allocator and rehashing |
| `OpCache` | the lossy operation cache |
| `Ldd` | diagrams as immutable trees, and what operations on them mean for sets of markings |
| `LddPackage`, `LddOps`, `LddGc` | the package: handles, memoised operations, garbage collection, node counting |
| `PetriNets` | firing, unobservable closure, divergence, canonical generating sets |
| `CommonSog`, `SogGraphs`, `SeqSog` | the set-level algorithms on handles, what a graph says about the net, the sequential construction |
| `NewNet`, `NetReading`, `Propositions`, `Construction` | the net built by name and its observable split, what its arcs mean for firing, propositions of an aggregate, the whole chain from net to graph |
| `Codec`, `HandOff` | the string form of a set and the hand-off of an aggregate between processes |
| `ParallelSog`, `DemandSog`, `RingTermination`, `CacheSeqlock`, `ConcurrentTable` | the concurrent parts, as transition systems over single steps |
| `DemandLevels` | how far ahead the on-demand construction works |
| `DemandRaces`, `TableRaces`, `CacheTears` | the runs in which three of them go wrong, and exactly when they can |
| `RingEnds` | how the waves of the distributed construction end |

Main results:

- **Language.** The graph built from a net has a path labelled `w` from its first node exactly when some
  firing sequence from the initial marking projects to `w`; the path is unique and ends in exactly the
  markings reached by such sequences.  The theorem is composed down to the bits: nets are read from
  named arcs and place markings, sets are handles of a packed hash table, operations are memoised in a
  lossy cache.  A transition is enabled where its arcs say, in all markings, if and only if what they take
  from each place fits a 32-bit word.
- **Canonicity.** Two handles of one depth are equal if and only if they denote the same set.
- **Canonisation** gives a generating set of least size, one marking for each initial component, and
  an aggregate handed to another process through it and the string form is rebuilt exactly.
- **Divergence** is detected exactly: the test answers true if and only if an infinite unobservable run exists.
- **Concurrency.** Every run of the parallel construction ends, and in the graph of the sequential one.
  The ring stops only when nothing is left to do anywhere, stays so, and once nothing is left it does
  stop within 5n + 1 steps of n processes.  On-demand construction completes only nodes fewer than LEVEL
  edges from the initial one or one asked for and, when it rests, all those nearer than that to the initial
  one, if no node has two predecessors.  A cache hit is never a torn entry unless 65536 puts happened during
  the read, and then it can be.  Two parts of the program are not safe as they stand, and the
  exact conditions are proved.  On-demand expansion schedules each task once in all runs if and only if
  there is no worker thread, or no observable transition leads from the initial aggregate to another one
  in which something is firable.  Concurrent lookups of threads that all start in a region of the table
  never confuse two keys, in any run and for every probe limit, if and only if no thread starts in a
  shared or unclaimed region that has a free bucket; for threads that start without one, the same holds
  of the runs in which no claim of such a thread fails.
- **Garbage collection** keeps exactly what the protected references reach, under unchanged handles that
  lookups still find.

Token counts are 32-bit words with wrap-around, as in the program; no boundedness is assumed, and
`Net.BoundedRun` shows that on bounded nets firing sequences are the ordinary ones.  Hash functions are
parameters: everything holds for any function.  A full unique table, on which the program exits, is
the result `TableFull`.  Every operation on handles, up to `Construction.Build`, either succeeds with the
result stated or leaves a table that is full: for some node not stored, every bucket is in use or all slots
that its probes may visit are filled.  That takes a node for each bucket, or as many as the slots that a new
table lets a lookup visit (`LddPackages.LddPackage.FullMeans`).

Where the code and its intent differ, the model follows the code:

- `computeSeqSOG` never examines the initial node for divergence (`SeqSogs.InitialDivergenceMissed`);
  every other flag is exact (`LoopsOk`: the flag of node i is set exactly when i is not 0 and its
  aggregate diverges).
- The string form survives a round trip exactly under the condition of `Codec.RoundTrip`: besides values
  up to 254 and up to 32639 markings, unsigned arithmetic lets the largest 32-bit value and the 128
  largest counts through.  The empty set is written with count one.
- Threads allocate table buckets without atomic instructions, each in a region of its own.  But the
  region variable of a new thread is zero, not "none" (src/SylvanWrapper.cpp:22-26; only the creator of
  the table resets its own, 141-153), so all worker threads start in region 0.  Two of them can then take
  one bucket and two keys get one index: in a table just created already in the first lookups of its
  creator and one worker (`TableRaces.EmptyTableCollides`), in general unless region 0 was full when the
  workers started (`TableRaces.WorkersUniqueIffFull`), and under any given probe limit as soon as two new
  keys that probe alike have their place within it (`TableRaces.CollidesWithin`).  A thread without a
  region whose claim fails is left in the last region, whoever owns it, with the same effect when it
  looks up again (`TableRaces.StrayCollides`).
- A lookup that loses its swap and then reaches the probe limit keeps its claimed bucket for ever: a
  reachable run loses a bucket so (`TableRaces.SomeLeak`), and buckets are lost in no other way
  (`ConcurrentTables.LeaksWhen`).
- On demand, the level of a node is tested, raised, and its tasks are pushed without a lock
  (src/MCMultiCore/ModelCheckThReq.cpp:84-98, 142-156).  Two threads that read level 0 of one node both
  push all its tasks (`DemandRaces.ClashDoubles`).  One worker and the client suffice: the worker marks
  the first node completed before it tests the level of the new one, and the client may ask for that one
  meanwhile (`DemandRaces.OnceIffShallow`; `DemandRaces.WaitingOnceIffShallow` for a client that waits for
  each node it has asked for).  Two workers whose tasks lead to the same new aggregate need no request
  (`DemandRaces.ForkDoubles`).
- `get_mddnbr` counts siblings at the end of the leftmost path, not all nodes of a level; that is enough
  for canonisation (`Ldds.BreadthAgrees`).

## Model

| member | source | states |
|---|---|---|
| `Words.PackFields` | src/SylvanWrapper.h:219-225 | a packed node gives back its value, and its pointers modulo 2^47, unmarked and not a copy node |
| `Words.PackRoundTrip` | src/SylvanWrapper.h:134-144 | unpacking inverts packing if and only if both pointers are below 2^47 |
| `Words.MarkKeepsFields` | src/SylvanWrapper.h:211-217 | the mark bit hides no field, and clearing it restores the word |
| `Words.TaggedInjective` | src/SylvanCacheWrapper.h:17-29 | cache keys of different operations or operands below 2^40 never collide |
| `Slots.Slotting.PlaceOk` | src/SylvanWrapper.cpp:420-437 | filling the empty slot that probing reached keeps every stored index reachable by probing |
| `Slots.Slotting.Found` | src/SylvanWrapper.cpp:417-462 | a stored key is met at its own position of its probe walk and only filled slots come before |
| `Slots.Slotting.RoomLeft` | src/SylvanWrapper.cpp:1019-1062 | while an index is not placed, some slot is empty |
| `ProbeWalk.ProbeFormula` | src/SylvanWrapper.cpp:464-477 | the probe loop takes eight slots of a line, then the line of the hash advanced by the step |
| `ProbeWalk.ReduceIsModulo` | src/SylvanWrapper.cpp:411-415 | the first slot is the hash modulo the table size |
| `ProbeWalk.Jump` | src/SylvanWrapper.cpp:468-476 | a jump of 8q moves q lines modulo the number of lines, whatever the 64-bit wrap-around does |
| `ProbeWalk.LinesDistinct` | src/SylvanWrapper.cpp:406-406 | with an odd step and a power-of-two number of lines, no line is entered twice before all have been |
| `ProbeWalk.ProbeInjective` | src/SylvanWrapper.cpp:464-477 | the first `size` probes never repeat a slot |
| `ProbeWalk.ProbeCovers` | src/SylvanWrapper.cpp:464-477 | the first `size` probes visit every slot of the table |
| `ProbeWalk.ProbeFindsGap` | src/SylvanWrapper.cpp:1041-1061 | while some slot is empty, one of the first `size` probes finds an empty one |
| `UniqueTables.UniqueTable.constructor` | src/SylvanWrapper.cpp:65-146 | a new table is empty and valid, with the two reserved buckets in use and the limit computed from its size |
| `UniqueTables.UniqueTable.ScanRegion` | src/SylvanWrapper.cpp:501-515 | the first free bucket of a region, or none if all are in use |
| `UniqueTables.UniqueTable.NextRegion` | src/SylvanWrapper.cpp:520-537 | claims the next unclaimed region round the ring; fails only when all are claimed |
| `UniqueTables.UniqueTable.ClaimDataBucket` | src/SylvanWrapper.cpp:495-540 | takes a free bucket, and fails exactly when every bucket is in use |
| `UniqueTables.UniqueTable.Search` | src/SylvanWrapper.cpp:417-478 | the probe loop finds a key if and only if it is stored, otherwise the first empty slot of its walk, or the probe limit |
| `UniqueTables.UniqueTable.ProbeVerdict` | src/SylvanWrapper.cpp:442-462 | an empty slot means the key is absent; equal hash bits and data mean it is found; anything else means it lies further on |
| `UniqueTables.UniqueTable.FilledMany` | src/SylvanWrapper.cpp:464-466 | if the first n probes for a key meet filled slots, at least n indices are placed |
| `UniqueTables.UniqueTable.Lookup` | src/SylvanWrapper.cpp:400-479 | same index for the same key, a fresh index of at least two for a new one, 0 only for a key that is not stored when no bucket is free or all slots up to the probe limit are filled; all other keys keep their index |
| `UniqueTables.UniqueTable.Insert` | src/SylvanWrapper.cpp:420-437 | an absent key gets a fresh bucket and the slot that probing reached |
| `UniqueTables.UniqueTable.ClearData` | src/SylvanWrapper.cpp:1114-1134 | frees all buckets and regions but the two reserved buckets, leaving the data |
| `UniqueTables.UniqueTable.Mark` | src/SylvanWrapper.cpp:1177-1185 | marks a bucket and says whether it was unmarked |
| `UniqueTables.UniqueTable.FindEmpty` | src/SylvanWrapper.cpp:1019-1062 | terminates at the first empty slot of the walk, with the threshold raised past it |
| `UniqueTables.UniqueTable.RehashRange` | src/SylvanWrapper.cpp:995-1016 | places exactly the marked buckets of the range, and keeps all placed ones reachable |
| `UniqueTables.UniqueTable.RehashAll` | src/SylvanWrapper.cpp:979-992 | the table is valid again and stores exactly the marked keys, under their old indices |
| `UniqueTables.UniqueTable.ClearHashes` | src/SylvanWrapper.cpp:1072-1083 | empties all slots |
| `OpCaches.NextStatusFields` | src/SylvanCacheWrapper.cpp:115-120 | the next status word is unlocked and carries the hash bits of its key |
| `OpCaches.OpCache.constructor` | src/SylvanCacheWrapper.cpp:40-50 | a new cache answers no key but the all-zero one |
| `OpCaches.OpCache.Get` | src/SylvanCacheWrapper.cpp:61-83 | what the cache answers for a key, and whether it does |
| `OpCaches.OpCache.Put` | src/SylvanCacheWrapper.cpp:106-134 | the key is answered from now on unless its bucket is locked; every other key is answered as before, or forgotten if it shares the bucket |
| `OpCaches.OpCache.Clear` | src/SylvanCacheWrapper.cpp:136-141 | forgets every key but the all-zero one |
| `Ldds.Canonical` | src/SylvanWrapper.cpp:366-394 | two well-formed diagrams of one depth are the same tree if and only if they denote the same set |
| `Ldds.HasLength` | src/SylvanWrapper.cpp:361-364 | members of a diagram have its depth as length and 32-bit components |
| `Ldds.EmptyIsFalse` | src/SylvanWrapper.cpp:366-367 | only the false leaf denotes the empty set |
| `Ldds.CubeDenotes` | src/SylvanWrapper.cpp:361-364 | a cube denotes exactly its marking |
| `Ldds.UnionDen` | src/SylvanWrapper.cpp:606-674 | the union recursion keeps diagrams well formed and denotes set union |
| `Ldds.UnionCommutes` | src/SylvanWrapper.cpp:619-624 | swapping the operands of a union gives the same diagram |
| `Ldds.MinusDen` | src/SylvanWrapper.cpp:766-806 | the difference recursion denotes set difference |
| `Ldds.IntersectDen` | src/SylvanWrapper.cpp:1191-1240 | the intersection recursion denotes set intersection |
| `Ldds.FireOntoHas` | src/SylvanWrapper.cpp:853-870 | the sibling loop adds to the accumulator exactly the markings fired from the siblings left |
| `Ldds.FireDen` | src/SylvanWrapper.cpp:836-873 | firing denotes { x - minus + plus : x in the set, x >= minus }, in 32-bit arithmetic |
| `Ldds.DivideDen` | src/SylvanWrapper.cpp:730-764 | dividing keeps exactly the markings that agree with the first one up to the level |
| `Ldds.ChainSingle` | src/SylvanWrapper.cpp:704-712 | no sibling on the leftmost path if and only if there is at most one marking |
| `Ldds.BreadthAgrees` | src/SylvanWrapper.cpp:715-728 | one sibling at a level if and only if the markings that agree with the first one above the level agree with it there |
| `LddPackages.LddPackage.constructor` | src/SylvanWrapper.cpp:65-146 | a new package is valid and holds only the two leaves, with no node counted |
| `LddPackages.LddPackage.HandlesCanonical` | src/SylvanWrapper.cpp:366-394 | in every valid state, two handles of one depth are equal if and only if they denote the same set |
| `LddPackages.LddPackage.TreeInjective` | src/SylvanWrapper.cpp:366-394 | two handles never stand for the same tree |
| `LddPackages.LddPackage.ValueOf` | src/SylvanWrapper.h:138-140 | the value read from a node word is the value of the tree; the leaves read as zero |
| `LddPackages.LddPackage.RightOf` | src/SylvanWrapper.h:134-136 | the right pointer leads to the right subtree; the leaves read as zero |
| `LddPackages.LddPackage.DownOf` | src/SylvanWrapper.h:142-144 | the down pointer leads to the lower subtree, which is never the false leaf; the leaves read as zero |
| `LddPackages.LddPackage.MakeNode` | src/SylvanWrapper.cpp:366-394 | the handle of the node, or of the right sibling when the lower diagram is empty; all handles keep their trees; refused only for a node with a non-empty lower diagram that is not stored, when every bucket is in use or all its probes up to the limit meet filled slots; the counter advances by the number of new handles modulo 2^32 |
| `LddPackages.LddPackage.LookupTwice` | src/SylvanWrapper.cpp:377-391 | a refused lookup is tried once more; a success stores the key under the answered index; a refusal means that the key is not stored and has no room |
| `LddPackages.LddPackage.FullMeans` | src/SylvanWrapper.cpp:384-389 | a full table holds a node for every bucket, or at least as many nodes as the slots that a new table lets a lookup visit |
| `LddPackages.LddPackage.CacheGet` | src/SylvanCacheWrapper.cpp:55-59 | whatever the cache answers for an operation is a correct result of it |
| `LddPackages.LddPackage.CachePut` | src/SylvanCacheWrapper.cpp:101-104 | storing a correct result keeps every answer of the cache correct |
| `LddOps.CubeOf` | src/SylvanWrapper.cpp:361-364 | handle of the set of one marking, or a full table |
| `LddOps.UnionMono` | src/SylvanWrapper.cpp:606-674 | handle of the set union, whatever the cache holds or forgets, or a full table |
| `LddOps.MinusOf` | src/SylvanWrapper.cpp:766-806 | handle of the set difference, whatever the cache holds or forgets, or a full table |
| `LddOps.IntersectOf` | src/SylvanWrapper.cpp:1191-1240 | handle of the set intersection, whatever the cache holds or forgets, or a full table |
| `LddOps.SkipToCommon` | src/SylvanWrapper.cpp:1206-1219 | skipping siblings to a common value loses no common marking |
| `LddOps.FiringMono` | src/SylvanWrapper.cpp:836-873 | handle of the fired set, whatever the cache holds or forgets, or a full table |
| `LddOps.FireSiblings` | src/SylvanWrapper.cpp:846-870 | the loop over siblings computes the whole firing of the node |
| `LddOps.IsFirable` | src/SylvanWrapper.cpp:811-834 | true if and only if some marking covers the input arcs; on the empty set too, if the transition takes a token |
| `LddOps.DivideInternal` | src/SylvanWrapper.cpp:730-760 | handle of the divided diagram, whatever the cache holds or forgets, or a full table |
| `LddOps.DivideRec` | src/SylvanWrapper.cpp:762-764 | the markings that agree with the first one up to the level |
| `LddOps.IsSingle` | src/SylvanWrapper.cpp:704-712 | true if and only if there is at most one marking |
| `LddOps.MddNumber` | src/SylvanWrapper.cpp:715-728 | at most one if and only if the markings alike above the level are alike at it |
| `LddGcs.ReachAllMembers` | src/SylvanWrapper.cpp:1136-1166 | the nodes the protected references reach are those below some reference |
| `LddGcs.MarkRec` | src/SylvanWrapper.cpp:1168-1175 | stopping at marked nodes, marking from a reference still marks exactly what was marked and what it reaches |
| `LddGcs.MarkRefs` | src/SylvanWrapper.cpp:1141-1166 | marks exactly what the references reach |
| `LddGcs.CountMarked` | src/SylvanWrapper.cpp:318-355 | the number of set bits of a range |
| `LddGcs.Trace` | src/SylvanWrapper.cpp:967-972 | after clearing and marking, the marked nodes are exactly those reached; the cache is empty |
| `LddGcs.CollectGarbage` | src/SylvanWrapper.cpp:967-976 | exactly the leaves and what the protected references reach survive, with handles, words and trees unchanged; the cache is emptied, the threshold never falls, and the created counter is the number of survivors modulo 2^32 |
| `LddGcs.StoredFound` | src/SylvanWrapper.cpp:979-992 | a surviving key is looked up under its old index |
| `LddGcs.ForestShrinks` | src/SylvanWrapper.cpp:1168-1175 | the survivors form a forest: no survivor lost a child |
| `LddGcs.NodeCountMark` | src/SylvanWrapper.cpp:598-604 | counts the reachable nodes not marked yet, once each, and marks them |
| `LddGcs.NodeCountUnmark` | src/SylvanWrapper.cpp:584-592 | clears exactly the marks of the reachable nodes |
| `LddGcs.NodeCount` | src/SylvanWrapper.cpp:578-582 | the number of distinct reachable nodes; all words are afterwards what they were |
| `LddGcs.CountNodes` | src/SylvanWrapper.cpp:578-582 | counting leaves the whole package valid and unchanged |
| `PetriNets.Net.BoundedRun` | src/SylvanWrapper.cpp:858-863 | if no marking reached by the ordinary firing rule overflows, the program's firing sequences are the ordinary ones |
| `PetriNets.Net.FireAllMembers` | src/CommonSOG.cpp:41-43 | the successors of a set by a transition are the markings fired from its members |
| `PetriNets.Net.ClosureLeast` | src/CommonSOG.cpp:14-27 | the closure is the least set that contains the given one and is closed under unobservable firings |
| `PetriNets.Net.SaturationRound` | src/CommonSOG.cpp:17-25 | a round of firings stays in the closure, and one that adds nothing has reached it |
| `PetriNets.Net.ImageAll` | src/CommonSOG.cpp:49-56 | firing each unobservable transition once gives the one-step image |
| `PetriNets.Net.BackwardCycle` | src/CommonSOG.cpp:135-137 | in a finite non-empty set where every member has a predecessor, some member is on a cycle |
| `PetriNets.Net.InfiniteCycle` | src/CommonSOG.cpp:122-141 | an infinite run in a finite set meets a marking on a cycle |
| `PetriNets.Net.DivergesIffCycle` | src/CommonSOG.cpp:122-141 | in a closed set, an infinite unobservable run exists if and only if some marking is on a cycle |
| `PetriNets.Net.ImageRound` | src/CommonSOG.cpp:127-139 | the iterated images of a closed set shrink and lose no marking on a cycle |
| `PetriNets.Net.FixpointCycle` | src/CommonSOG.cpp:135-137 | a non-empty set equal to its image contains a cycle |
| `PetriNets.ImagesAlternate` | src/CommonSOG.cpp:122-141 | on a set that is not closed the iterated images can alternate for ever, so divergence is only tested on closed sets |
| `PetriNets.Net.BfsRound` | src/CommonSOG.cpp:84-90 | a round of the pruning search keeps what is reached sound and expanded, and an empty front means all is reached |
| `PetriNets.Net.CanonJoin` | src/CommonSOG.cpp:104-115 | canonical sets of the two pruned halves make one for the whole |
| `PetriNets.Net.CanonInitial` | src/CommonSOG.cpp:59-119 | whatever reaches a canonical marking is reached from it |
| `PetriNets.Net.CanonComponent` | src/CommonSOG.cpp:59-119 | each initial component of the closure has exactly one canonical marking |
| `PetriNets.Net.CanonMinimal` | src/CommonSOG.cpp:59-119 | no set with the same closure is smaller |
| `CommonSogs.CommonSog.AccessibleEpsilon` | src/CommonSOG.cpp:14-27 | the handle fixpoint terminates with exactly the unobservable closure, or with a full table |
| `CommonSogs.CommonSog.Saturate` | src/CommonSOG.cpp:19-24 | one pass contains the image and stays in the closure |
| `CommonSogs.CommonSog.FirableObs` | src/CommonSOG.cpp:30-39 | exactly the observable transitions enabled in some marking of the set |
| `CommonSogs.CommonSog.GetSuccessor` | src/CommonSOG.cpp:41-43 | the set fired by a transition |
| `CommonSogs.CommonSog.ImageForward` | src/CommonSOG.cpp:49-56 | the one-step image |
| `CommonSogs.CommonSog.Canonize` | src/CommonSOG.cpp:59-119 | terminates with a subset that has the same closure and in which no marking is reached from another, or with a full table |
| `CommonSogs.CommonSog.FindLevel` | src/CommonSOG.cpp:68-76 | the first level at which the markings differ |
| `CommonSogs.CommonSog.Split` | src/CommonSOG.cpp:69-72 | both halves are non-empty, disjoint and make up the set |
| `CommonSogs.CommonSog.Unreached` | src/CommonSOG.cpp:82-91 | the targets that the sources do not reach, even when the search stops early |
| `CommonSogs.CommonSog.Prune` | src/CommonSOG.cpp:81-101 | first half without what the second reaches, second half without what the pruned first reaches |
| `CommonSogs.CommonSog.SetDiv` | src/CommonSOG.cpp:122-141 | terminates on a closed set, with true if and only if an infinite unobservable run exists |
| `SogGraphs.AggregateExact` | src/threadSOG.cpp:157-158 | the aggregate of a word holds exactly the markings reached by firing sequences that project to it |
| `SogGraphs.FromInitial` | src/threadSOG.cpp:137-144 | the same from the closure of the initial marking |
| `SogGraphs.Graph.PathUnique` | src/threadSOG.cpp:175-193 | a word labels at most one path |
| `SogGraphs.Graph.PathExists` | src/threadSOG.cpp:151-195 | in a complete graph a firable word labels a path |
| `SogGraphs.Graph.Language` | src/threadSOG.cpp:119-198 | a word labels a path of a complete graph if and only if some firing sequence projects to it |
| `SogGraphs.Graph.PathMeaning` | src/threadSOG.cpp:119-198 | that path is unique and ends in exactly the markings reached by such sequences |
| `SogGraphs.Unique` | src/threadSOG.cpp:119-198 | a complete reachable graph is determined, up to node numbers, by the net and its initial aggregate |
| `SeqSogs.LddGraph.Find` | src/LDDGraph.cpp:15-21 | the first node with the handle, or none has it |
| `SeqSogs.LddGraph.Insert` | src/LDDGraph.cpp:92-95 | appends a node without edges |
| `SeqSogs.LddGraph.AddEdge` | src/threadSOG.cpp:175-177 | the edge is put in front at both ends and counted |
| `SeqSogs.MirrorEdge` | src/threadSOG.cpp:175-176 | every edge stays recorded as successor and as predecessor |
| `SeqSogs.FoundOrNew` | src/LDDGraph.cpp:15-21 | equal handle if and only if equal aggregate, so find misses no stored aggregate |
| `SeqSogs.SuccessorOf` | src/threadSOG.cpp:157-158 | the handle of the successor aggregate |
| `SeqSogs.NewNode` | src/threadSOG.cpp:170-178 | a new aggregate is stored with its exact divergence flag and its firable transitions as work |
| `SeqSogs.Visit` | src/threadSOG.cpp:151-193 | firing one transition adds one edge, to the node of the successor aggregate, new or found |
| `SeqSogs.Expand` | src/threadSOG.cpp:148-195 | emptying a popped item gives its node all its edges, and stores new aggregates or shortens the stack |
| `SeqSogs.ComputeSeqSog` | src/threadSOG.cpp:119-198 | terminates with the complete graph of the closure of the initial marking: distinct reachable aggregates, one edge for each firable observable transition, both edge directions, exact arc count, exact flags but for node 0; or with a full table |
| `SeqSogs.InitialDivergenceMissed` | src/threadSOG.cpp:128-146 | a net whose initial aggregate diverges although its flag stays false |
| `ParallelSogs.RunInv` | src/MCMultiCore/ModelCheckerCPPThread.cpp:34-91 | the invariant holds in every state of every interleaving, whatever the order in which queued items are taken |
| `ParallelSogs.OnePlace` | src/MCMultiCore/ModelCheckerCPPThread.cpp:65-86 | each aggregate is queued, held by one thread, just inserted by one thread, or completed, and only one of these |
| `ParallelSogs.CompletedNode` | src/MCMultiCore/ModelCheckerCPPThread.cpp:81-86 | a completed node has exactly one edge for each firable observable transition |
| `ParallelSogs.QuiescentComplete` | src/MCMultiCore/ModelCheckerCPPThread.cpp:34-91 | a quiescent state holds the complete graph, all nodes completed, every arc counted once |
| `ParallelSogs.Confluent` | src/MCMultiCore/ModelCheckerCPPThread.cpp:34-91 | any two runs, with any numbers of threads, end in the same graph up to node numbers |
| `ParallelSogs.MatchesSequential` | src/MCMultiCore/ModelCheckerCPPThread.cpp:34-91 | that graph is the one the sequential construction ends with |
| `ParallelSogs.InsertInv` | src/LDDGraph.cpp:25-40 | find-or-insert never stores an aggregate twice |
| `ParallelSogs.Progress` | src/MCMultiCore/ModelCheckerCPPThread.cpp:60-90 | until quiescence some thread can step |
| `ParallelSogs.StepLowers` | src/MCMultiCore/ModelCheckerCPPThread.cpp:60-90 | every step lowers a bound computed from the aggregates not yet stored, the transitions queued or held, and the phases of the threads |
| `ParallelSogs.RunBounded` | src/MCMultiCore/ModelCheckerCPPThread.cpp:34-91 | so no run has more steps than the bound of its start |
| `ParallelSogs.EveryRunEnds` | src/MCMultiCore/ModelCheckerCPPThread.cpp:34-91 | every run ends, and one that cannot go on is quiescent and has built the sequential graph, up to node numbers |
| `DemandSogs.RunInv` | src/MCMultiCore/ModelCheckThReq.cpp:51-162 | the invariant holds in every state of every interleaving of requests and worker steps in which no two threads were about to expand one node with tasks (all runs, if there is no worker or nothing onward: `DemandRaces.AlwaysReached`) |
| `DemandSogs.PushedOnce` | src/MCMultiCore/ModelCheckThReq.cpp:84-98 | over such a run each task is pushed at most once, and exactly once if and only if its node has a level above zero, its transition is firable there and no thread is still to push it |
| `DemandSogs.PendingCounts` | src/MCMultiCore/ModelCheckThReq.cpp:136-140 | in such a run the counter of an expanded node, once set, is the number of its tasks to be pushed, queued or running |
| `DemandSogs.PendingPositive` | src/MCMultiCore/ModelCheckThReq.cpp:136-136 | under the invariant the counter is positive whenever it is decremented |
| `DemandSogs.CompletedNode` | src/MCMultiCore/ModelCheckThReq.cpp:137-140 | in such a run a completed node has exactly one edge for each firable observable transition |
| `DemandSogs.QuiescentAhead` | src/MCMultiCore/ModelCheckThReq.cpp:142-156 | at rest after such a run, completed nodes are the expanded ones and nodes of level two or more have completed successors |
| `DemandSogs.AllExpanded` | src/MCMultiCore/ModelCheckThReq.cpp:51-162 | at rest after such a run, with every stored node expanded, the graph is complete and the sequential one, up to node numbers |
| `DemandSogs.Progress` | src/MCMultiCore/ModelCheckThReq.cpp:96-98 | in such a run, while an expanded node is not completed some thread can step |
| `DemandLevels.LevelSource` | src/MCMultiCore/ModelCheckThReq.cpp:142-143 | in every state of such a run no level exceeds LEVEL and only visited nodes have that one; every other expanded node has an edge from a node whose level is exactly one more |
| `DemandLevels.ExpandedNear` | src/MCMultiCore/ModelCheckThReq.cpp:142-156 | so an expanded node of level l lies at the end of a path of LEVEL - l edges from a visited node |
| `DemandLevels.CompletedNear` | src/MCMultiCore/ModelCheckThReq.cpp:142-156 | a completed node is fewer than LEVEL edges from node 0 or from a node that was requested |
| `DemandLevels.LevelAhead` | src/MCMultiCore/ModelCheckThReq.cpp:142-156 | at rest after such a run, in a graph where each node has one predecessor, all nodes at fewer edges from a node than its level are completed |
| `DemandLevels.LookAhead` | src/MCMultiCore/ModelCheckThReq.cpp:51-162 | so at rest all nodes fewer than LEVEL edges from node 0 are completed there and, in any graph, without requests no others are |
| `DemandRaces.OnceIffApart` | src/MCMultiCore/ModelCheckThReq.cpp:84-156 | a step towards the next row: no run pushes a task twice if and only if in no run two threads are about to expand the same node with tasks, whether or not the client waits |
| `DemandRaces.OnceIffShallow` | src/MCMultiCore/ModelCheckThReq.cpp:51-162 | no run pushes a task twice if and only if there is no worker, or no observable transition leads from the initial aggregate to another one in which something is firable |
| `DemandRaces.WaitingOnceIffShallow` | src/MCMultiCore/ModelCheckThReq.cpp:93-104 | the same of runs in which the client waits for each node it has asked for, with two workers or more, or when one such transition is the only one to its target |
| `DemandRaces.AlwaysReached` | src/MCMultiCore/ModelCheckThReq.cpp:51-162 | under that condition every run is one of those the theorems about on-demand construction speak of |
| `DemandRaces.ClashDoubles` | src/MCMultiCore/ModelCheckThReq.cpp:142-156 | two threads about to expand a node go on to push any of its tasks twice |
| `DemandRaces.ForkDoubles` | src/MCMultiCore/ModelCheckThReq.cpp:142-156 | with two or more workers, if two transitions lead from the initial aggregate to one other aggregate in which something is firable, some run without any request pushes a task twice |
| `DemandRaces.SomeDouble` | src/MCMultiCore/ModelCheckThReq.cpp:142-156 | a net of one transition that pushes a task twice for every number of workers from one on, even with a client that waits |
| `RingTermination.StepConserves` | src/DistributedSOG.cpp:423-471 | messages sent are received or under way, through every step |
| `RingTermination.QuietStable` | src/DistributedSOG.cpp:180-309 | a quiet system stays quiet and its counters stop |
| `RingTermination.Decision` | src/DistributedSOG.cpp:366-380 | equal sums of the two waves mean that all was quiet when the first wave came back |
| `RingTermination.RunInv` | src/DistributedSOG.cpp:318-417 | the invariant of the waves holds in every state of every run |
| `RingTermination.StopIsSafe` | src/DistributedSOG.cpp:318-417 | if a stop is ever sent, then at the end of the first wave every stack was empty, nobody worked and no message was under way, and it stays so for ever |
| `RingTermination.StackBalance` | src/DistributedSOG.cpp:180-309 | in every run the stack of a process and the items it took make up what it started with, the nodes it pushed and the new aggregates it received |
| `RingTermination.StopPopsAll` | src/DistributedSOG.cpp:423-471 | so when a stop is sent, everything ever put on a stack has been taken from it |
| `RingTermination.QuietStops` | src/DistributedSOG.cpp:366-380 | waves launched once the system is quiet always end by stopping it |
| `RingEnds.StepLowers` | src/DistributedSOG.cpp:318-417 | every step of a quiet system belongs to the waves and lowers a bound computed from their positions |
| `RingEnds.WavesGoOn` | src/DistributedSOG.cpp:318-417 | in a quiet system some wave can go on until every process is stopped |
| `RingEnds.QuietEnds` | src/DistributedSOG.cpp:318-417 | once n processes are quiet, every run ends within 5n + 1 steps, and exactly with all processes stopped and no token left |
| `CacheSeqlock.Config.FinalTest` | src/SylvanCacheWrapper.cpp:80-82 | the second status read agrees exactly when the bucket is unlocked and a multiple of 65536 puts, the last with the same hash bits, came between |
| `CacheSeqlock.Config.RunInv` | src/SylvanCacheWrapper.cpp:61-134 | the invariant holds in every state of every interleaving of readers and writers |
| `CacheSeqlock.Config.HitIsWhole` | src/SylvanCacheWrapper.cpp:61-83 | with fewer than 65536 puts during the read, a hit returns key and result written together by one put, the last before the read began, never a torn entry; before any put, only the zeroed entry |
| `CacheTears.TornHit` | src/SylvanCacheWrapper.cpp:61-134 | exactly 65536 puts of another entry with the same hash bits, during a read, make it answer the key of one entry with the result of the other |
| `CacheTears.SomeTear` | src/SylvanCacheWrapper.cpp:61-134 | so for every hash function some hit after 65536 puts answers an entry that no put wrote: the bound is sharp |
| `ConcurrentTables.RunInv` | src/SylvanWrapper.cpp:400-546 | from the invariant, it holds in every state of every interleaving of lookups in which no claim failed for a thread without a region |
| `ConcurrentTables.NotStored` | src/SylvanWrapper.cpp:420-437 | a key whose probes all missed up to an empty slot is stored nowhere |
| `ConcurrentTables.PlaceInv` | src/SylvanWrapper.cpp:432-437 | under the invariant, a successful swap gives an index to a key that had none |
| `ConcurrentTables.RoundFails` | src/SylvanWrapper.cpp:520-537 | a thread's walk round the ring claims an unclaimed region, or fails when there is none and ends where it began, but from no region in the last one |
| `ConcurrentTables.MoveInv` | src/SylvanWrapper.cpp:520-537 | the invariant survives a thread's move to another region, unless its claim fails and it had none |
| `ConcurrentTables.NeverStuck` | src/SylvanWrapper.cpp:400-546 | under the invariant every lookup can make its next step and stays inside the arrays |
| `ConcurrentTables.AnswersUnique` | src/SylvanWrapper.cpp:400-479 | from a safe start, of all answers of a run in which no claim failed for a thread without a region, equal keys have equal indices and conversely; each index is at least two and holds its key |
| `ConcurrentTables.StepGrows` | src/SylvanWrapper.cpp:432-437 | in any state, slots only go from empty to filled and then keep their word |
| `ConcurrentTables.WordsApart` | src/SylvanWrapper.cpp:501-546 | from a safe start, in a run in which no claim failed for a thread without a region, two threads never update the same bitmap word, although they do so without atomic instructions |
| `ConcurrentTables.LeaksWhen` | src/SylvanWrapper.cpp:464-466 | from a safe start, in a run in which no claim failed for a thread without a region, a bucket is in use for nothing if and only if some lookup reached the probe limit with it claimed |
| `TableRaces.UniqueIffSafe` | src/SylvanWrapper.cpp:495-540 | if the probe limit covers the table, answers never collide in the runs in which no claim fails for a thread without a region, if and only if no thread starts in a shared or unclaimed region with a free bucket |
| `TableRaces.AlwaysUniqueIffSafe` | src/SylvanWrapper.cpp:495-540 | the same, whatever the probe limit: in these runs answers never collide if and only if the start is safe in this sense |
| `TableRaces.NoStray` | src/SylvanWrapper.cpp:520-527 | if every thread starts in a region, no claim ever fails for a thread without one |
| `TableRaces.DistinctIffSafe` | src/SylvanWrapper.cpp:495-540 | so if every thread starts in a region, answers never collide, in any run and whatever the limit, if and only if the start is safe |
| `TableRaces.CollidesWithin` | src/SylvanWrapper.cpp:495-515 | under any limit, two threads in one region with a free bucket confuse two new keys that probe alike and have their place within the limit |
| `TableRaces.OwnLimitCovers` | src/SylvanWrapper.cpp:169-169 | the limit a table is created with covers it exactly if it has 512 buckets |
| `TableRaces.WorkersUniqueIffFull` | src/SylvanWrapper.cpp:22-26 | as the program starts, its workers all in region 0, answers never collide, in any run and whatever the limit, if and only if that region is full already; under one given limit too, if it covers the table |
| `TableRaces.EmptyTableCollides` | src/SylvanWrapper.cpp:110-153 | in a table just created, its creator without a region and the others in region 0, a run of two lookups gives two keys one index, for every hash function and every limit above zero |
| `TableRaces.StrayCollides` | src/SylvanWrapper.cpp:520-527 | two threads without a region and only the last one unclaimed: the failing claim leaves one in the region of the other, and answers collide |
| `TableRaces.LastSlotLeaks` | src/SylvanWrapper.cpp:432-466 | two lookups whose only empty slot is the last they may probe can end with a lost bucket |
| `TableRaces.SomeLeak` | src/SylvanWrapper.cpp:464-466 | a run from a safe start that loses a bucket |
| `Codec.ListMembers` | src/SylvanWrapper.cpp:943-960 | the paths of a diagram spell exactly its markings |
| `Codec.ListSorted` | src/SylvanWrapper.cpp:943-960 | in strictly increasing lexicographic order |
| `Codec.ListCounts` | src/SylvanWrapper.cpp:40-62 | as many paths as markings |
| `Codec.ByteRoundTrip` | src/SylvanWrapper.cpp:956-956 | a value survives its byte if and only if it is at most 254 or the largest 32-bit word |
| `Codec.HeaderRoundTrip` | src/Hybrid/MCHybrid/MCHybridSOG.cpp:409-409 | a count survives the header if and only if it is at most 32639 or among the 128 largest 32-bit words |
| `Codec.RoundTrip` | src/Hybrid/MCHybrid/MCHybridSOG.cpp:407-421 | the string of a non-empty set holds the markings it announces and decodes to the set if and only if its count and all its values survive |
| `Codec.SmallRoundTrip` | src/Hybrid/MCHybrid/MCHybridSOG.cpp:407-421 | it does for up to 254 tokens and 32639 markings, and the string is long enough to decode |
| `Codec.EncodeInjective` | src/SylvanWrapper.cpp:933-965 | within these bounds equal strings mean equal sets, whatever the node tables |
| `Codec.NoZeroByte` | src/SylvanWrapper.cpp:933-965 | within these bounds no byte is zero |
| `Codec.RestList` | src/SylvanWrapper.cpp:943-960 | gluing prefixes along the paths gives the bytes of the markings in order |
| `Codec.Descend` | src/SylvanWrapper.cpp:950-958 | one descent writes one marking and leaves the rest on the stack |
| `Codec.Serialise` | src/SylvanWrapper.cpp:933-965 | the stack loop writes the header and every marking once, in order |
| `Codec.MarksCount` | src/SylvanWrapper.cpp:40-62 | the number of markings, one for the empty set |
| `Codec.DecodeMessage` | src/Hybrid/MCHybrid/MCHybridSOG.cpp:407-421 | the set of the markings the string spells |
| `HandOff.Send` | src/Hybrid/MCHybrid/MCHybridSOG.cpp:193-201 | the message spells a canonical generating set of the aggregate |
| `HandOff.Receive` | src/Hybrid/MCHybrid/MCHybridSOG.cpp:229-233 | closing the decoded set rebuilds exactly the aggregate, whatever the receiver's table holds, whenever the message's count and values survive the string |
| `HandOff.MessageFits` | src/Hybrid/MCHybrid/MCHybridSOG.cpp:193-201 | they do if all values of the aggregate survive their byte and some generating set has at most 32639 markings |
| `HandOff.Transfer` | src/Hybrid/MCHybrid/MCHybridSOG.cpp:188-247 | the receiver's aggregate is the sender's, or one of the two tables is full |
| `NewNets.NewNet.AddPlace` | src/NewNet.cpp:315-324 | refused exactly when the name is taken; otherwise a place is appended |
| `NewNets.NewNet.AddTrans` | src/NewNet.cpp:348-357 | refused exactly when the name is taken; otherwise a transition is appended |
| `NewNets.NewNet.AddPre` | src/NewNet.cpp:359-374 | refused exactly when a name is unknown; otherwise the transition has exactly one input arc more and the place one output arc more, with the valuation given, and nothing else changes |
| `NewNets.NewNet.AddPost` | src/NewNet.cpp:376-391 | refused exactly when a name is unknown; otherwise the transition has exactly one output arc more and the place one input arc more, with the valuation given, and nothing else changes |
| `NewNets.NewNet.PosTrans` | src/NewNet.cpp:284-293 | the search of the vector agrees with the name table |
| `NewNets.NewNet.SetListObservable` | src/NewNet.cpp:136-182 | exactly the named transitions and those adjacent to a named place become observable |
| `NewNets.NewNet.SetNonObservables` | src/NewNet.cpp:275-281 | exactly the other transitions are unobservable |
| `NewNets.NewNet.Observe` | src/NewNet.cpp:111-130 | the split for a formula, everything observable without one; no unobservable transition touches a formula place |
| `NewNets.NewNet.NearPlace` | src/NewNet.cpp:160-172 | as arcs are recorded equally often at both ends, a transition with an arc at a mentioned place is made observable |
| `NetReading.Accumulate` | src/CommonSOG.cpp:207-222 | the arc loop sums the valuations place by place, in 32-bit arithmetic |
| `NetReading.ReadNet` | src/CommonSOG.cpp:205-222 | the vectors of what the input arcs of every transition take and its output arcs give, and its side of the split |
| `NetReading.NothingFrom` | src/CommonSOG.cpp:207-222 | a transition without arcs from a place takes nothing there, and without arcs to it gives nothing there |
| `NetReading.PreRead` | src/CommonSOG.cpp:213-216 | one input arc more adds its valuation to what its transition takes from its place, modulo 2^32, and changes nothing else |
| `NetReading.PostRead` | src/CommonSOG.cpp:217-222 | one output arc more adds its valuation to what its transition gives to its place, modulo 2^32, and changes nothing else |
| `NetReading.EnabledIffAffords` | src/CommonSOG.cpp:213-216 | a transition whose input arcs carry less than 2^32 tokens at each place is enabled exactly in the markings that hold them |
| `NetReading.EnabledRightIffWords` | src/CommonSOG.cpp:213-216 | and in all markings so if and only if they carry less than 2^32 at each place |
| `NetReading.FiredTokens` | src/SylvanWrapper.cpp:858-863 | firing subtracts what the input arcs carry and adds what the output arcs do, modulo 2^32 |
| `NetReading.Load` | src/CommonSOG.cpp:179-236 | the transition relation and the initial marking as diagrams, or a full table |
| `Propositions.FormulaFrozen` | src/NewNet.cpp:155-172 | no unobservable transition changes the tokens of a formula place |
| `Propositions.AggregateUniform` | src/CommonSOG.cpp:14-27 | an aggregate reached from a uniform one has one token count in each such place |
| `Propositions.ReachableUniform` | src/CommonSOG.cpp:14-43 | every aggregate reached from the initial marking has |
| `Propositions.PlacesOnPath` | src/LDDState.cpp:26-58 | the lists read down the first path are the proposition places that are marked, or unmarked, in the first marking |
| `Propositions.ListsValid` | src/LDDState.cpp:26-58 | for a uniform place, being listed as marked, or unmarked, means being so in all markings, and exactly one of the lists has it |
| `Propositions.PropositionsHold` | src/LDDState.cpp:26-58 | so both lists partition the formula places of every reachable aggregate and hold for all its markings |
| `Construction.ReadMarking` | src/threadSOG.cpp:66-71 | the initial marking holds the tokens of each place, in order |
| `Construction.Build` | src/threadSOG.cpp:30-198 | from a net of named arcs to its graph: complete, from the closure of the marking that the places give, with the net's observable language, its handles denoting the aggregates in a valid table, edges recorded at both ends and counted, exact flags from node 1 on; or a full table |
| `Construction.Recognises` | src/threadSOG.cpp:119-198 | a complete graph accepts exactly the observable words of the net |

## Left out

- LddOps.IsFirable: excludes the empty set for a transition that takes no token, because there the program reads the words of handle 0, which are zero, and recurses without end.
- LddPackages.LddPackage.MakeNode: requires ordered siblings and one depth, which the program asserts.
- CommonSogs.CommonSog.SetDiv: requires a set closed under unobservable firings, as at every call in the program; on other sets the loop need not end (`PetriNets.ImagesAlternate`).
- CommonSogs.CommonSog.Canonize: the exit for two empty halves is not modelled, because it cannot be reached (`FindLevel`); the two pruning loops are one method, `Unreached`.
- HandOff.Transfer: requires values that survive their byte and some generating set of at most 32639 markings; what happens beyond is stated by `Codec.RoundTrip`.
- Codec.DecodeMessage: requires a string that holds the markings it announces; the program reads past the end of a shorter one.
- LddGcs.CollectGarbage: the current region is kept over a collection as in the program, the counter is recomputed before rehashing, which changes no bit, and handles that no protected reference reaches become invalid.
- UniqueTables.UniqueTable.Lookup: one thread, so a compare-and-swap on an empty slot succeeds; `ConcurrentTable.dfy` treats interleavings. Bitmaps are arrays of booleans, and the threshold, a 16-bit counter, is unbounded.
- ConcurrentTables.RunInv: holds from a safe start while no claim fails for a thread without a region; `TableRaces.DistinctIffSafe` and `TableRaces.StrayCollides` show that neither can be dropped. The walk round the regions is one step, as its end depends only on which regions are claimed; memory is sequentially consistent.
- CacheSeqlock.Config.RunInv: one bucket, whose threads may use any keys; memory is sequentially consistent.
- ParallelSogs.RunInv: predecessor vectors, the stop flag, deadlock flags and condition variables are not modelled; aggregates are sets, as canonical handles justify; any queued item may be taken next, which covers the queue's own order.
- ConcurrentTables.AnswersUnique: requires a safe start, for the reason proved in `TableRaces.UniqueIffSafe`; so does `ConcurrentTables.WordsApart`.
- DemandSogs.PushedOnce: speaks of the same runs as `DemandSogs.RunInv`, like the other theorems about on-demand construction.
- TableRaces.UniqueIffSafe: says nothing of runs in which a claim fails for a thread without a region, like `TableRaces.AlwaysUniqueIffSafe`; there are none if every thread starts in one (`TableRaces.NoStray`).
- DemandLevels.LookAhead: promises all near nodes only where no node has two predecessors, because a node met first on a longer way keeps its lower level; speaks of the same runs as `DemandSogs.RunInv`.
- DemandRaces.OnceIffShallow: the client may ask for any stored node at any time; waiting is stated separately.
- DemandRaces.WaitingOnceIffShallow: leaves out the case of one worker when every onward transition from the initial aggregate has a twin, in which the worker expands all targets while the client still waits.
- DemandSogs.RunInv: holds while no two threads are about to expand one node with tasks (`DemandRaces.OnceIffApart`, `DemandRaces.OnceIffShallow`); find-or-insert and the edge are one step each, as under the program's locks, the atomic counter is decremented in one step, any queued task may be taken next, and the arc counter, predecessor vectors and flags computed for new nodes are not modelled.
- RingTermination.RunInv: what processes push and to whom they send is arbitrary; tokens and state messages are received whole, one wave pair at a time.
- SeqSogs.LddGraph.Insert: nodes are named by their position in the node vector instead of pointers, a new node is stored just before its edge is added instead of just after, and the marking counter is not kept.
- Propositions.PlacesOnPath: the marked and the unmarked reading, two copies of one loop, are one method with a flag.
- NewNets.NewNet.Observe: the interface transitions are empty, as in the constructor used by the model checkers; arcs are not sorted, on which nothing depends; positions are unbounded, in the program 16-bit.
- Resizing of the table, copy nodes, custom bucket callbacks, `lddmc_project`: unused by the construction.
- `Set_Bloc`: it combines node handles with a bitwise operator and has no meaning for sets.
- The partial-order reduction variants.
- Net-file parsing; queues; inhibitor, reset and auto arcs: not part of the transition relation.
- The model-checker adapters, message passing, threads, memory mapping, printing and timing; digests.
- The wave protocol of the hybrid builder and the stop test of the multi-threaded builders.
