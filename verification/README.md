# Verified model of the fraud-detection index and request parser

The repository answers fraud-score requests by looking up the five nearest reference
transactions in a Hierarchical Navigable Small World (HNSW) graph over 14-dimensional byte
vectors. This project models, in Dafny, the parts that carry its logic, and proves what they
promise:

* **Query engine** (`internal/hnsw/query.go`): greedy descent through the upper layers, the
  width-10 search at layer 0 with its binary heap, ten result slots and wrapping visited
  marks, and the selection of five.
* **Builder** (`internal/hnsw/hnsw.go`): insertion with arbitrary levels, heuristic neighbour
  selection in place, edge updates and pruning, and `Finalize`.
* **Reorder** (`internal/hnsw/reorder.go`): the breadth-first renumbering of every buffer.
* **Persistence** (`internal/hnsw/persist.go`): the sectioned index file, saved and loaded.
* **Ground truth** (`internal/buildindex/buildindex.go`): the exact five nearest by scanning.
* **Strict parser** (`internal/api/parse_strict.go`): the cursor parser of request payloads.
* **Quantisation** (`internal/hnsw/quantize.go`, `internal/hnsw/dist.go`).

## How it is organised

| files | what they hold |
|---|---|
| `CandidateHeap`, `LayerSearch`, `TopFive`, `Network` | the three query phases as functions of adjacency and distances, and what their results mean |
| `GreedyClimbs`, `SearchOrder` | the descent and the search told by the nodes they pass: greedy paths, best-first order |
| `SearchCertificate` | the search invariant and the local-optimality certificate |
| `Relabelling` | renaming the nodes of a graph, and its effect on queries |
| `Distance`, `Bits`, `ByteCodec`, `Quotients` | distances, label bits, little-endian integers, digits |
| `GraphIndex`, `QueryEngine`, `BruteForce`, `Recall` | the flat index, the in-place query code that refines the functions, exact search, and answers compared with it |
| `BreadthFirst`, `DiscoveryOrder`, `PermutedBuffers`, `UpperRows`, `Reordering`, `ReorderedTwice` | Reorder and its theorems |
| `NeighborSelection`, `BuilderSearch`, `BaseRows`, `EdgeUpdates` | the pieces of an insertion |
| `BuildSteps`, `Building` | one insertion as a relation between states and the invariant it keeps; the builder class that refines it |
| `Flattening`, `Pipeline` | Finalize, the whole offline build, and its file round trip |
| `CompleteLayers` | builds small enough that every answer is exact |
| `Counterexamples` | builds in which comments of the source fail |
| `Persistence` | the index file |
| `PayloadGrammar`, `Calendar`, `StrictParser` | the payload language, the calendar, and the cursor parser that takes exactly that language |
| `PayloadPrinter`, `PayloadRoundTrip`, `PayloadWriter`, `CompactPayload` | printed payloads, the two directions of the round trip, and a payload written out word by word |
| `Quantization` | rounding and its effect on distances |

Imperative code is modelled by classes and methods with loops, each proved against a
function or relation on values; the properties of the source are then lemmas about those.
Where several methods share a loop of the source, the loop body is a method of its own.

## Where the code and its comments part ways

* `internal/hnsw/reorder.go:9-12` says that reordering changes no answer. Because
  `top5FromResults` pads with id 0 when fewer than five nodes are found, that holds exactly
  under the condition of `Reordering.ReorderRenamesAnswersOf`; the response is unchanged
  exactly under that of `Reordering.ReorderKeepsFraudCountOf`, and
  `Counterexamples.ReorderChangesResponses` is a build in which it changes.
* `internal/hnsw/hnsw.go:521` says that `relinkLayer0` always leaves M0 neighbours, and
  `internal/hnsw/hnsw.go:495-498` that the new edge must be admitted. The heuristic may keep
  fewer and may drop the new edge: `EdgeUpdates.FullRowRelinked` says exactly when each of
  the two holds, `Counterexamples.RowShrinksBelowM0` is a build in which neither does, and
  `NeighborSelection.LoneSurvivor` says when only one neighbour survives. What always holds
  is in `EdgeUpdates.RelinkLayer0` and `BuildSteps.NoneStranded`: the row is the heuristic's
  choice and never becomes empty.
* `internal/hnsw/hnsw.go:292` says that the candidates are not sorted when the nearest is
  looked for. They have just been sorted, and partly overwritten, in place;
  `Building.Choose` shows that the scan still finds the closest.
* `internal/hnsw/hnsw.go:631-636` narrows offsets to int32; `Flattening.Finalize` states the
  exact limit.
* `internal/hnsw/query.go:118-121` says that fewer than ten results may be held when the early
  stop fires; `Network.NoEarlyStopBelowWidth` shows that it never fires then.
* `internal/buildindex/buildindex.go:90-92` says that a stored vector is always in its own
  truth set. A scanned node displaces another only if strictly closer, so that holds exactly under the
  condition of `BruteForce.StoredIsInOwnTruth`; `Counterexamples.LastTwinIsMissing` is a build
  in which it fails.
* The strict parser accepts a comma after the last array item, digits missing after a
  decimal point, leading zeros, and any bytes after the closing brace;
  `PayloadRoundTrip.AcceptsExactlyPrinted` describes the accepted language exactly.

## Model

| member | source | states |
|---|---|---|
| CandidateHeap.PushMinKeepsHeap | internal/hnsw/query.go:193-205 | pushing keeps the heap order and adds exactly the new item to the multiset |
| CandidateHeap.PopMinKeepsHeap | internal/hnsw/query.go:209-235 | popping removes exactly one occurrence of the root, which is a least item, and keeps the heap order |
| CandidateHeap.RootIsLeast | internal/hnsw/query.go:113-114 | the root of a heap is no farther than any pending candidate |
| CandidateHeap.SiftUpPath | internal/hnsw/query.go:193-205 | a pushed item rises past strictly farther parents only and stops below one that is not, each of those moving down one step; nothing else moves |
| CandidateHeap.SiftDownPath | internal/hnsw/query.go:209-235 | the item moved to the root sinks past strictly closer children only, each time the closer one and the left one of equals; nothing else moves |
| CandidateHeap.Heap.Push | internal/hnsw/query.go:193-205 | the in-place sift-up on the growing slice leaves exactly the sequence the push function gives, ties included |
| CandidateHeap.Heap.Pop | internal/hnsw/query.go:209-235 | the in-place sift-down leaves exactly the sequence the pop function gives, for empty and one-item heaps too |
| LayerSearch.Scan | internal/hnsw/query.go:71-81 | one pass over a neighbour list ends at the start or at a strictly closer neighbour, and at one no farther than every neighbour listed |
| GreedyClimbs.ScanIsFirstNearest | internal/hnsw/query.go:71-81 | a pass that improves ends at the first of the nearest neighbours listed |
| GreedyClimbs.DescendIsClimb | internal/hnsw/query.go:65-86 | hill climbing from a node ends at r if and only if a path leads there on which each node is the first of the nearest neighbours of the one before and strictly closer, until none is closer |
| GreedyClimbs.DescentIsUnique | internal/hnsw/query.go:51-86 | the descent through the layers is determined by where it starts |
| LayerSearch.WorstFromIsFirst | internal/hnsw/query.go:150-157 | the rescan finds the first of the farthest results |
| SearchCertificate.RunProgress | internal/hnsw/query.go:112-163 | every iteration meets a new node or shortens the heap, so the search terminates on every graph |
| SearchCertificate.IterationKeepsInv | internal/hnsw/query.go:112-163 | one iteration keeps the search invariant: results distinct, faithful and best of everything met, each kept node pending or expanded, everything met reachable |
| SearchCertificate.StopIsSafe | internal/hnsw/query.go:116-123 | when the early stop fires no kept node is still pending |
| SearchCertificate.AdmitIsStrict | internal/hnsw/query.go:138-161 | a node met is kept if and only if fewer than ten are held or it is strictly closer than one of them, and then the first of the farthest makes room |
| SearchOrder.SearchIsBestFirst | internal/hnsw/query.go:112-163 | the nodes met are those of a best-first search of width ten: a node is expanded only when fewer than ten of the nodes met are strictly closer, all of those having been expanded, and the search goes on until every other node met has ten that are no farther (so the early stop fires exactly then) |
| SearchCertificate.RunCertified | internal/hnsw/query.go:112-163 | from any state satisfying the invariant the search ends with all kept nodes expanded |
| SearchCertificate.SearchIsLocallyOptimal | internal/hnsw/query.go:88-164 | results are distinct, reachable, at most ten, with their true distances; nothing met but not kept is closer than any of them; each out-neighbour of a result is a result or no closer than the worst one |
| TopFive.OrderIsSelection | internal/hnsw/query.go:168-189 | the rounds pick distinct results by distance, equally close ones by cell, leave none that comes before, and stop early only when all results are used |
| TopFive.ClosestDistancesUnique | internal/hnsw/query.go:166-189 | any two lists of the k closest nodes of one pool have the same distances position by position |
| Network.DescentIsGreedy | internal/hnsw/query.go:51-86 | on every upper layer the descent ends at a member of that layer with no strictly closer neighbour there, which also lives on the layer below, and is never farther than the entry point |
| Network.NoEarlyStopBelowWidth | internal/hnsw/query.go:116-123 | the early stop never fires while fewer than ten results are held |
| Network.ShortSearchIsComplete | internal/hnsw/query.go:112-163 | a search that ends with fewer than ten results has kept every node reachable from its start |
| Network.ResultCount | internal/hnsw/query.go:112-163 | the number of results is the number of reachable nodes capped at ten, and they are exactly the reachable ones when there are at most ten |
| Network.Top5IsClosest | internal/hnsw/query.go:168-189 | from five or more results the outputs are five distinct closest ones in order |
| Network.AnswerIsClosestOfMet | internal/hnsw/query.go:51-61 | with five nodes reachable at layer 0 the answer is the five closest of all nodes met, distinct and in order |
| Network.AnswerIsExactOnSmallGraphs | internal/hnsw/query.go:51-61 | with five to ten nodes, all reachable, the answer is the five nearest nodes of the graph |
| GraphIndex.UpperLocalIndex | internal/hnsw/hnsw.go:104-124 | the binary search returns the position of the node on its layer, or -1 exactly when it is not there |
| GraphIndex.UpperNeighborsOf | internal/hnsw/hnsw.go:128-137 | the list of a member is its row, of a non-member empty |
| GraphIndex.IndexOfUnique | internal/hnsw/hnsw.go:104-124 | in an ascending layer every member is found at its own position |
| GraphIndex.Index.NeighborsInRange | internal/hnsw/hnsw.go:80-84 | in a well-formed index every neighbour slot in use on any layer is -1 or a node id |
| GraphIndex.Index.NetIsOk | internal/hnsw/hnsw.go:80-137 | a well-formed index stands for a layered graph on its nodes |
| QueryEngine.VisitSlot.BumpGeneration | internal/hnsw/query.go:91-98 | after the bump no node counts as met, whatever the marks held and also when the uint8 counter wraps |
| QueryEngine.VisitSlot.Begin | internal/hnsw/query.go:99-110 | the buffers stand for the search state holding just the entry |
| QueryEngine.VisitSlot.Meet | internal/hnsw/query.go:134-161 | marking and admitting a new node changes the buffers as the admission rule says: append below ten results, else replace the tracked worst if closer |
| QueryEngine.VisitSlot.ReplaceWorst | internal/hnsw/query.go:146-159 | only the worst cell changes, and the tracked worst is again a farthest result |
| QueryEngine.GreedyDescendUpper | internal/hnsw/query.go:65-86 | hill climbing in place ends where the greedy path from the entry ends; it terminates because the distance falls |
| QueryEngine.ExpandCandidate | internal/hnsw/query.go:125-162 | the loop over one neighbour list changes the buffers as the expansion function says |
| QueryEngine.ExpandClosest | internal/hnsw/query.go:112-163 | one loop iteration agrees with the search function, and the termination measure falls |
| QueryEngine.SearchLayer0Fast | internal/hnsw/query.go:90-164 | from a slot with any history the search ends in the state determined by graph, query and entry alone |
| QueryEngine.PickRounds | internal/hnsw/query.go:168-189 | the output cells hold the ids picked round by round, then id 0 |
| QueryEngine.Top5FromResults | internal/hnsw/query.go:168-189 | the five outputs are the selection from the held results |
| QueryEngine.QueryFast5 | internal/hnsw/query.go:51-61 | whatever the slot was used for before, the five ids written are those a greedy descent and a best-first search explain |
| QueryEngine.Score | internal/api/handler.go:119-129 | the fraud count is the number of answer positions labelled fraud, at most five, so it indexes one of six responses |
| BruteForce.Consider | internal/buildindex/buildindex.go:134-158 | one step keeps the five cells the nearest nodes scanned so far, with the tracked worst a farthest one |
| BruteForce.SortFive | internal/buildindex/buildindex.go:159-166 | the in-place insertion sort sorts the distances and moves the ids along, conserving the ids |
| BruteForce.BruteTop5 | internal/buildindex/buildindex.go:127-168 | with five or more nodes the result is five distinct nearest nodes of the whole graph in order; with fewer, all of them and padding; which ones among equally far ones is that of the scan in id order |
| BruteForce.StoredIsInOwnTruth | internal/buildindex/buildindex.go:90-92 | a stored vector is in its own truth set if and only if fewer than five earlier nodes hold the same vector |
| Counterexamples.LastTwinIsMissing | internal/buildindex/buildindex.go:90-92 | a build of six equal vectors in which node 5 is not among its own five nearest nodes |
| Recall.FastMatchesBrute | internal/buildindex/buildindex.go:87-123 | an exact answer has the distances of any other exact answer, position by position |
| Recall.SameIds | internal/buildindex/buildindex.go:107-121 | where no two nodes are equally far, an exact answer is the brute-force answer, id by id |
| Recall.SureHits | internal/buildindex/buildindex.go:107-121 | all five answers are hits when there are at most five nodes, or when the answer is exact and every other node is farther than its five |
| Recall.FiveHitsAreExact | internal/buildindex/buildindex.go:107-121 | when five nodes can be found, five hits mean an exact answer, and where every other node is farther than the five answered they mean nothing else |
| Recall.MeasureHits | internal/buildindex/buildindex.go:95-123 | over one reused slot the total is the number of pairs of a query and an answered id in its brute-force truth; so at most five a query, and five for each query on which the index cannot miss |
| Recall.HitsAreCounted | internal/buildindex/buildindex.go:113-120 | the hits of one query are the positions whose id is in the truth |
| Network.ShortAnswer | internal/hnsw/query.go:168-189 | with fewer than five reachable nodes the answer lists all of them, closest first, then id 0 |
| Network.AnswerExplained | internal/hnsw/query.go:51-189 | every answer is explained by the nodes passed: greedy climbs down the layers, a best-first search from where they end, and the five closest of the nodes met in order, or all of them and then id 0 |
| Relabelling.ScanCommutes | internal/hnsw/query.go:71-81 | renaming nodes renames the outcome of one pass |
| Relabelling.DescendCommutes | internal/hnsw/query.go:65-86 | renaming nodes renames where hill climbing ends |
| Relabelling.PushCommutes | internal/hnsw/query.go:193-205 | renaming commutes with pushing, cell by cell of the heap |
| Relabelling.PopCommutes | internal/hnsw/query.go:209-235 | renaming commutes with popping, cell by cell of the heap |
| Relabelling.RunCommutes | internal/hnsw/query.go:112-163 | renaming commutes with the whole search loop: marks, heap cells, results and worst index |
| Relabelling.OrderCommutes | internal/hnsw/query.go:168-189 | the selection picks the same positions after renaming |
| Relabelling.AnswerCommutes | internal/hnsw/reorder.go:9-12 | position by position, results are renamed and padding stays id 0 |
| Relabelling.QueryCommutes | internal/hnsw/reorder.go:9-12 | the answer of a renamed graph is the renamed answer if and only if five nodes can be found at layer 0 or id 0 keeps its name |
| BreadthFirst.NumberRow | internal/hnsw/reorder.go:44-54 | going through one node's neighbours queues the new ones in slot order and keeps the numbering a bijection onto 0..next-1 in non-decreasing walk length |
| BreadthFirst.Traverse | internal/hnsw/reorder.go:35-55 | the queue loop numbers nodes with walks from the entry and processes each; the queue is the one the traversal function gives |
| BreadthFirst.ShortestWalks | internal/hnsw/reorder.go:35-55 | every node a walk reaches is numbered, by a walk no longer |
| BreadthFirst.OrderIsBreadthFirst | internal/hnsw/reorder.go:35-63 | a node numbered before a reachable one is itself reachable in no more steps, so reachable nodes come first in non-decreasing depth |
| BreadthFirst.NumberRest | internal/hnsw/reorder.go:57-63 | the remaining nodes are numbered after all others, by increasing old id, and no number changes |
| BreadthFirst.Number | internal/hnsw/reorder.go:29-63 | oldToNew numbers the nodes in exactly the traversal order, leftover nodes last; it is a bijection, sends the entry to 0 and is in breadth-first order |
| DiscoveryOrder.BfsInOrder | internal/hnsw/reorder.go:35-55 | the queue lists the nodes by where they occur first in the rows of the nodes queued before them, row after row and slot after slot |
| DiscoveryOrder.NewOrderExplained | internal/hnsw/reorder.go:35-63 | the whole new order: by first occurrence from the entry, then all other nodes by increasing id |
| PermutedBuffers.Invert | internal/hnsw/reorder.go:65-69 | newToOld is the inverse of oldToNew |
| PermutedBuffers.CopyVector | internal/hnsw/reorder.go:80-82 | the new vector buffer holds, up to this node, the vectors of the nodes behind the new ids |
| PermutedBuffers.CopyRow | internal/hnsw/reorder.go:84-99 | the new row is the renamed old row in order, then -1 slots |
| PermutedBuffers.CopyLabel | internal/hnsw/reorder.go:101-105 | the label bit moves with its node and no other bit is set |
| Bits.TestBitIsDigit | internal/hnsw/hnsw.go:89-91 | the label of a node is binary digit id modulo 8 of byte id / 8 |
| UpperRows.SortUpperLayer | internal/hnsw/reorder.go:144-171 | the layer is again ascending, its node, count and connection rows moved together, the other layers untouched |
| Reordering.SortLayers | internal/hnsw/reorder.go:124-128 | every layer is sorted, each a shuffle of its own rows only |
| Reordering.RewriteBase | internal/hnsw/reorder.go:71-106 | all base buffers are the images of the old ones |
| Reordering.RewriteUpper | internal/hnsw/reorder.go:108-129 | the upper rows are renamed in place and re-sorted layer by layer |
| Reordering.RewrittenWellFormed | internal/hnsw/reorder.go:108-136 | the reordered index is well formed, so binary search still works on it |
| Reordering.UpperRowsMoved | internal/hnsw/reorder.go:108-129 | on every upper layer the list found for a renamed node is the renamed old list, empty for non-members |
| Reordering.RewrittenIsIsomorphic | internal/hnsw/reorder.go:71-136 | vectors, labels, neighbour lists in order on every layer and the entry point are the images of the originals |
| Reordering.Reorder | internal/hnsw/reorder.go:23-137 | the graph becomes a well-formed isomorphic copy under a breadth-first bijection with the entry at 0, in the buffers that the traversal order determines; an empty graph is unchanged |
| Reordering.ReorderRenamesAnswers | internal/hnsw/reorder.go:9-12 | every query's answer on the reordered graph is the renamed answer if and only if five nodes can be found or id 0 keeps its name |
| Reordering.ReorderKeepsFraudCount | internal/hnsw/reorder.go:9-12 | the fraud count of every query is unchanged if and only if five nodes can be found or the node named 0 has the same label before and after |
| Reordering.ReorderRenamesAnswersOf | internal/hnsw/reorder.go:9-12 | told before reordering: every answer is renamed along if and only if five nodes can be found or the entry point is node 0 |
| Reordering.ReorderKeepsFraudCountOf | internal/hnsw/reorder.go:9-12 | told before reordering: the fraud count is kept if and only if five nodes can be found or node 0 and the entry point are labelled alike |
| Counterexamples.ReorderChangesResponses | internal/hnsw/reorder.go:9-12 | two records with levels 0 and 1, the first labelled fraud: every query counts four frauds before Reorder and one after it |
| ReorderedTwice.BfsRenamed | internal/hnsw/reorder.go:35-55 | renaming the nodes renames the queue of the traversal |
| ReorderedTwice.NewOrderOfNewNames | internal/hnsw/reorder.go:29-63 | on a graph whose nodes are named by their place in the order, the order is that of the names, unreachable nodes included |
| ReorderedTwice.ReorderingTwiceIsOnce | internal/hnsw/reorder.go:23-137 | reordering a reordered graph changes no buffer and renames no node |
| NeighborSelection.SelectionIsDiverse | internal/hnsw/hnsw.go:436-476 | the selection is a sub-list of the sorted candidates, at most m, led by a closest one; beyond m candidates each later kept one is at least as far from every earlier kept one as from the query, and each dropped one has its reason |
| NeighborSelection.SelectNeighborsHeuristic | internal/hnsw/hnsw.go:448-476 | writing the kept items over the head of the array being read yields the selection from a sorted permutation of the input, and the first cell stays a closest candidate |
| NeighborSelection.KeepsClear | internal/hnsw/hnsw.go:461-470 | the inner loop accepts a candidate exactly when every kept item is at least as far from it as the query is |
| NeighborSelection.LoneSurvivor | internal/hnsw/hnsw.go:456-475 | of more than m >= 2 candidates only the closest survives if and only if every other one is closer to it than to the query |
| NeighborSelection.KeptExactlyWhen | internal/hnsw/hnsw.go:456-475 | a candidate is kept if and only if fewer than m of the earlier ones were kept and it clears all of those |
| NeighborSelection.FullSelection | internal/hnsw/hnsw.go:456-475 | of m + 1 candidates m are kept if and only if all but one clear each other and that one comes last or is not clear of an earlier one |
| EdgeUpdates.FullRowRelinked | internal/hnsw/hnsw.go:519-550 | for a full row and a new neighbour, whatever the order of equal distances: the row stays full if and only if all but one of the candidates clear each other and that one comes last or is not clear of an earlier one, and the new edge is admitted if and only if fewer than M0 of the candidates before it were kept and it clears all of those |
| Counterexamples.RowShrinksBelowM0 | internal/hnsw/hnsw.go:495-549 | a build of four points with M0 = 2 whose fourth insertion shrinks a full row to one neighbour and drops the new edge, against both comments |
| BuilderSearch.Visits.Reset | internal/hnsw/hnsw.go:377-385 | after the reset nothing counts as visited, also when the uint32 counter wraps |
| BuilderSearch.GreedyDescend | internal/hnsw/hnsw.go:337-358 | hill climbing on any layer of the growing graph ends where the greedy path from the entry ends |
| BuilderSearch.MeetNode | internal/hnsw/hnsw.go:411-424 | admitting a node, and evicting a farthest one beyond ef, keeps the width-ef search invariant |
| BuilderSearch.SearchStep | internal/hnsw/hnsw.go:400-426 | one iteration keeps the invariant and lowers the measure: unvisited nodes, then pending candidates |
| BuilderSearch.SearchLayer | internal/hnsw/hnsw.go:390-434 | for every ef >= 1 and every layer the search terminates; what it found satisfies the search invariant against the nodes it marked visited, with nothing pending, and those are what a best-first search of width ef meets |
| BuilderSearch.FoundAreClosestOfVisited | internal/hnsw/hnsw.go:387-434 | the nodes found are the ef closest of all visited (all visited when fewer), every visited node is reachable, and every neighbour of a found node has been visited |
| BuilderSearch.ShortFindIsComplete | internal/hnsw/hnsw.go:400-426 | a search that ends with fewer than ef nodes has found every node reachable from its start |
| BuilderSearch.FoundCount | internal/hnsw/hnsw.go:387-434 | the number of nodes found is the number of reachable ones capped at ef, and they are exactly the reachable ones when there are at most ef |
| BuilderSearch.OutcomeIsLocallyOptimal | internal/hnsw/hnsw.go:387-434 | the nodes found are distinct, reachable, at most ef, with true distances, and every neighbour of one is found too or no closer than all of ef found ones |
| BaseRows.AppendSlot | internal/hnsw/hnsw.go:503-510 | the edge is appended to the row with room; other rows and the -1 slots are as before |
| BaseRows.WriteRow | internal/hnsw/hnsw.go:543-549 | the row becomes the given ids then -1; other rows are as before |
| EdgeUpdates.RelinkLayer0 | internal/hnsw/hnsw.go:522-550 | a duplicate changes nothing; otherwise the row becomes the heuristic's choice among the old neighbours and the new one, with both conditions of FullRowRelinked when it was full, and no other row changes |
| EdgeUpdates.AddEdge | internal/hnsw/hnsw.go:502-517 | only the source's row on that layer changes: appended, or re-chosen when the base row is full |
| EdgeUpdates.PruneIfOverCapacity | internal/hnsw/hnsw.go:554-602 | a row within its cap is left alone; otherwise it becomes the heuristic's choice, and only that row changes |
| Building.ConnectBidirectional | internal/hnsw/hnsw.go:481-491 | the new node gets its chosen neighbours and each of them gets the reverse edge or a re-chosen row; nothing else changes |
| Building.Choose | internal/hnsw/hnsw.go:286-300 | the nearest node scanned out of the overwritten array is the closest node the search found |
| Building.WorkOnLayer | internal/hnsw/hnsw.go:280-301 | one layer's work is a width-efC search from the given entry, the heuristic's choice, and links both ways; the next entry is the closest node found |
| Building.RegisterOnUpperLayers | internal/hnsw/hnsw.go:316-333 | every layer up to the level exists and has an entry for the node, existing rows kept |
| Building.SetLabel | internal/hnsw/hnsw.go:216-222 | exactly the node's label changes, in both directions of the bit |
| Building.StoreNode | internal/hnsw/hnsw.go:227-229 | exactly the node's vector and label change |
| Building.InsertFirst | internal/hnsw/hnsw.go:243-252 | the first node becomes the entry point, alone on the layers up to its level |
| Building.Builder.constructor | internal/hnsw/hnsw.go:185-213 | a new builder satisfies the invariant with nothing inserted |
| Building.Builder.Insert | internal/hnsw/hnsw.go:226-311 | for every vector, label and level in 0..31 the new state is related to the old one by the insertion relation and the builder invariant holds again |
| BuildSteps.InsertKeepsInvariant | internal/hnsw/hnsw.go:226-326 | nested layers whose members are exactly the nodes of at least that level, edges only between members, no self-loops or duplicates, degrees within M and M0, and the entry point on the top layer survive every insertion |
| BuildSteps.TrailEntries | internal/hnsw/hnsw.go:260-300 | every search of an insertion starts at a member of its layer |
| BuildSteps.InsertionDescends | internal/hnsw/hnsw.go:260-266 | phase 1 passes every layer above the new level: from the entry point it climbs greedily, leaves each layer at one of its members that has no strictly closer neighbour there, no farther than where it came in, and the first search starts at the last of these |
| BuildSteps.NextSearchStartsClosest | internal/hnsw/hnsw.go:280-300 | every further search starts at a closest one of the nodes found on the layer above |
| BuildSteps.NoneStranded | internal/hnsw/hnsw.go:280-301 | after two or more insertions every node has a base-layer neighbour, and every later relink keeps that |
| BuildSteps.RunKeepsInvariant | internal/hnsw/hnsw.go:226-326 | the builder invariant holds after every prefix of every run of insertions |
| Flattening.SortedKeys | internal/hnsw/hnsw.go:613-625 | collecting and sorting the keys lists every member of the layer once, ascending |
| Flattening.FlattenLayer | internal/hnsw/hnsw.go:648-664 | the layer's rows are appended ascending, each with its whole list then -1 slots |
| Flattening.FlatRowsAgree | internal/hnsw/hnsw.go:607-670 | on every layer the list found in the flat rows is the builder's list, empty for non-members, nothing truncated |
| Flattening.Finalize | internal/hnsw/hnsw.go:607-670 | the graph becomes well formed if and only if its upper-layer entries number fewer than 2^31 (the offsets are int32), and then answers exactly the builder's lists |
| CompleteLayers.InsertKeepsComplete | internal/hnsw/hnsw.go:280-301 | while no more than M0 nodes are in and efC is at least their number, an insertion leaves every two nodes linked at the base layer |
| CompleteLayers.CompleteMeetsAll | internal/hnsw/query.go:112-163 | the search of a complete layer meets every node of it, however many there are |
| CompleteLayers.CompleteIsExact | internal/buildindex/buildindex.go:87-123 | on such an index every node is reachable for every query, and with five nodes or more every answer is exact |
| Pipeline.InsertSome | internal/buildindex/buildindex.go:62-85 | after inserting some of the records in order each inserted node holds its record, and up to M0 + 1 of them are pairwise linked |
| Pipeline.InsertAll | internal/buildindex/buildindex.go:62-85 | after inserting all records in order node i holds record i's vector and label |
| Pipeline.FinalizedStructure | internal/hnsw/hnsw.go:607-670 | flattening keeps everything the builder guarantees about layers, edges and degrees |
| Pipeline.ReorderedStructure | internal/hnsw/reorder.go:23-137 | reordering keeps it too, with levels moved to the new names |
| Pipeline.StructuredDescent | internal/hnsw/query.go:51-86 | on every finished index the descent of any query ends, on each upper layer, at a node of at least that level with no closer neighbour there |
| Pipeline.EntriesAreLevels | internal/hnsw/hnsw.go:629-636 | the upper layers hold as many entries as the drawn levels sum up to |
| Pipeline.BuildIndex | cmd/build-index/main.go:45-66 | for every list of records and levels summing below 2^31 the build yields a well-formed structured index with entry 0 in which record i, under its new name, keeps vector, label and level; up to M0 + 1 records are pairwise linked |
| Pipeline.BuildAndLoad | cmd/build-index/main.go:45-85 | the index saved is the index loaded, field by field, after any build within those limits; with five records or more, at most M0 + 1 and at most efC + 1, every answer of it is exact |
| ByteCodec.EncodeByte | internal/hnsw/persist.go:147-149 | byte i of an encoded number is its i-th base-256 digit, the least significant first |
| ByteCodec.DecodeEncode | internal/hnsw/persist.go:147-149 | decoding undoes encoding for every value that fits |
| ByteCodec.Int32sRoundTrip | internal/hnsw/persist.go:100-105 | an int32 slice seen as bytes and back is unchanged, negative values included |
| Persistence.HeaderRoundTrip | internal/hnsw/persist.go:44-66 | reading back the 160-byte header structure gives every field |
| Persistence.HeaderLayout | internal/hnsw/persist.go:41-66 | in the saved file every header field lies at its place, byte by byte: magic at 0, version at 8, node count at 12, M at 16, M0 at 20, entry point at 24, top layer at 28, section starts and lengths from 32 |
| Persistence.SectionLayout | internal/hnsw/persist.go:14-26 | the eight sections hold, in the documented order, the vectors, degrees, rows, labels and upper-layer buffers, every int32 in four bytes least significant first |
| Persistence.GapsAreZero | internal/hnsw/persist.go:79-96 | the rest of the header area and the padding before sections are zero |
| Persistence.WriteSection | internal/hnsw/persist.go:79-96 | the section starts at the next multiple of 16 and the recorded span is where its bytes are |
| Persistence.Save | internal/hnsw/persist.go:70-153 | the file is the header over the first 160 bytes of zeros plus the eight aligned sections, and the returned count is its length |
| Persistence.SectionsApart | internal/hnsw/persist.go:14-26 | sections start at or after byte 256 on multiples of 16, in order and disjoint, the last ending where the file ends |
| Persistence.SectionInImage | internal/hnsw/persist.go:143-153 | the header rewrite touches no section |
| Persistence.LoadAfterSave | internal/hnsw/persist.go:175-245 | loading a saved index gives it back if and only if its sizes agree and M and M0 fit uint32 |
| Persistence.WellFormedSurvives | internal/hnsw/persist.go:175-245 | every well-formed index passes all load-time checks and comes back unchanged |
| Persistence.LoadFromBytes | internal/hnsw/persist.go:175-245 | the new graph, or the refusal, is the one the parsing function gives, check by check in order |
| PayloadGrammar.StampIsItsText | internal/api/parse_strict.go:579-613 | a text has the timestamp form with a given valid value exactly when it is that value written YYYY-MM-DDTHH:MM:SSZ |
| PayloadGrammar.NumberDigit | internal/api/parse_strict.go:118-129 | each character of a number is the decimal digit of its place, the most significant first |
| Calendar.CalendarDateIsCarried | internal/api/parse_strict.go:612 | a stamp is the day that lies day - 1 days after the first of its month in a count of all days of the calendar, at the same time of day |
| Calendar.CarriedIsUnique | internal/api/parse_strict.go:612 | and no other date is |
| PayloadPrinter.FormReads | internal/api/parse_strict.go:14-152 | every way of writing a step, followed by anything that does not extend it, is read back as its value |
| PayloadPrinter.FormFrom | internal/api/parse_strict.go:14-152 | whatever a step reads was written in one of its forms |
| PayloadRoundTrip.ScriptReads | internal/api/parse_strict.go:154-304 | a printed object is read back value by value, whatever the spaces between its tokens |
| PayloadRoundTrip.PrintedIsRead | internal/api/parse_strict.go:154-346 | every printed payload is accepted with the printed values, whatever the spaces and whatever follows it |
| PayloadRoundTrip.ReadIsPrinted | internal/api/parse_strict.go:154-346 | every accepted payload was printed |
| PayloadRoundTrip.AcceptsExactlyPrinted | internal/api/parse_strict.go:154-346 | a text is accepted with given values if and only if it is a printed payload of those values followed by anything |
| PayloadWriter.IntegerExactness | internal/api/parse_strict.go:118-129 | a printed integer comes back unchanged if and only if it is below 2^31 (the int32 accumulator wraps) |
| PayloadWriter.StampExactness | internal/api/parse_strict.go:579-613 | a printed stamp comes back unchanged if and only if it is a day of the calendar (time.Date carries the days beyond a month) |
| PayloadWriter.DecimalPrints | internal/api/parse_strict.go:91-116 | every finite decimal has a written form of exactly that value |
| PayloadWriter.FractionIsNumber | internal/api/parse_strict.go:106-113 | the digits after the point stand for their number divided by that power of ten |
| PayloadWriter.RequestRoundTrip | internal/api/parse_strict.go:154-346 | every request with quote- and backslash-free strings, non-negative int32 integers, finite decimals and calendar dates is printed, accepted and read back as the same request |
| CompactPayload.CompactIsRead | internal/api/parse_strict.go:154-346 | a payload written out word by word is accepted, whatever follows it, and every field of the request is the value written after its key |
| StrictParser.SkipSpaces | internal/api/parse_strict.go:555-565 | the cursor moves past exactly the leading spaces and stays in bounds |
| StrictParser.HasPrefix | internal/api/parse_strict.go:567-577 | true exactly when the text starts with the word |
| StrictParser.ExpectKeyAt | internal/api/parse_strict.go:14-24 | moves past spaces, key, colon and spaces, or fails exactly when they are not there |
| StrictParser.ExpectByte | internal/api/parse_strict.go:26-32 | moves past spaces, byte and spaces, or fails exactly when they are not there |
| StrictParser.ReadStringAt | internal/api/parse_strict.go:38-53 | takes the text up to the next quote, failing on a backslash or a missing quote |
| StrictParser.ReadStringArrayAt | internal/api/parse_strict.go:55-89 | takes the items up to the closing bracket, a comma after the last one included |
| StrictParser.ScanFraction | internal/api/parse_strict.go:106-113 | adding each digit times a shrinking scale gives the exact value of the fraction digits |
| StrictParser.ReadFloat32At | internal/api/parse_strict.go:91-116 | takes sign, digits and fraction with their exact decimal value |
| StrictParser.ReadInt32At | internal/api/parse_strict.go:118-129 | takes the digits with their decimal value wrapped to int32 |
| StrictParser.ReadBoolAt | internal/api/parse_strict.go:131-140 | takes true or false and nothing else |
| StrictParser.ParseFixedUTC | internal/api/parse_strict.go:579-634 | accepts exactly the fixed form with fields in range and yields the day of the calendar they stand for, days beyond the end of a month carried into the next |
| StrictParser.ReadTimeAt | internal/api/parse_strict.go:142-152 | takes a quoted stamp of the fixed form |
| StrictParser.ParseStrictRequest | internal/api/parse_strict.go:154-346 | accepts exactly the payload language and leaves the request it stands for; a null last transaction leaves the old details in place |
| Distance.UnrolledIsSum | internal/hnsw/dist.go:20-40 | the unrolled expression is the sum of squares over all 14 dimensions |
| Quantization.QuantizeVector | internal/hnsw/quantize.go:28-43 | the output array holds the quantised value of every dimension |
| Quantization.QuantizeQuery | internal/hnsw/quantize.go:50-65 | the same values in wider cells |
| Quantization.RoundsHalfUp | internal/hnsw/quantize.go:67-90 | in range the byte is the scaled value rounded half up; values out of range are clamped to 0 and 255 |
| Distance.DistanceBound | internal/hnsw/dist.go:5-16 | between byte vectors the int32 distance never wraps and is at most 910350 |
| Distance.ZeroDistance | internal/hnsw/dist.go:5-16 | only equal byte vectors are at distance 0 |
| Quantization.RoundingError | internal/hnsw/quantize.go:67-90 | for in-range inputs the byte is within one half of the scaled value |
| Quantization.DistanceError | internal/hnsw/quantize.go:28-90 | the distance of quantised vectors is within 14 * 510 = 7140 of the scaled squared distance |
| Quantization.OrderPreserved | internal/hnsw/dist.go:5-16 | references whose scaled distances differ by more than 14280 keep their order |
| Quantization.SentinelGap | internal/hnsw/quantize.go:10-16 | a missing value maps to 0 and only it; every present one maps to 128 or more |
| Quantization.MissingIsFar | internal/hnsw/quantize.go:10-16 | a vector with a last transaction and one without are at least 2 * 128^2 apart |

## Left out

- Files, sockets and memory: os calls, mmap, page warming, unsafe casts, HTTP routing and
  pooling, JSON stream decoding, command-line flags. A file is a sequence of bytes with a
  position; requests are texts.
- The level draw (`internal/hnsw/hnsw.go:231-241`): its logarithm and random source; every
  level 0..31 is considered instead.
- sort.Slice and container/heap: methods known to callers only by contract (some sorted
  permutation; some least or greatest item). Their bodies are stand-ins.
- IEEE rounding, NaN and infinity: the parser's and the quantiser's arithmetic is exact.
- Go's time library: of time.Date only the carrying of days beyond the end of a month is
  modelled (the other fields are in range by then); weekdays are not part of this model.
- internal/vectorize and the response bodies: per-field formulas and constant texts.
- The unused finders and numberEnd (`internal/api/parse_strict.go:348-553`).
- Recall figures, and reachability of every node: only measured by the repository. Edge
  symmetry: pruning breaks it (`Counterexamples.RowShrinksBelowM0`).
- Slice aliasing: Graph buffers are fields holding sequences, so views into a loaded file
  and the reuse of temporary slices are not captured, nor is nil against empty. The heap,
  the visited marks, result cells, neighbour candidates and permuted buffers are arrays or
  array-backed and updated in place.
- Index ids and counters are unbounded, the builder's and Reorder's int32 ids being in range
  because fewer than 2^31 nodes are assumed; distances, offsets and payload integers wrap as
  in the source.
- Persistence.Save: the error returns of the operating system are not modelled.
- StrictParser.ParseStrictRequest: after a failure the fields already read keep whatever was
  assigned to them; the contract says nothing about them.
- Pipeline.BuildIndex: records arrive quantised; too few or too many records are not modelled.
- Building.Builder.Insert: ids are the next in order, as its comment demands of callers, and
  M and M0 are at most 255 because degrees are stored in bytes.
