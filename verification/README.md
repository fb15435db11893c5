# Verified model of maia

This project models, in Dafny, the parts of maia whose correctness is hardest to see: the join protocol between partitions,
the redistribution of distributed arrays, the stack machine that traverses trees and everything built on it, and the
algorithms on structured blocks, polyhedral meshes and CGNS sections.  Each property below is proved for all
inputs it speaks of; the rows that begin with "one input" show inputs on which a property that one might expect fails.

| file | what it models |
|---|---|
| `Traversal.dfy` | depth first traversal with an explicit stack, equal to the recursive traversal |
| `SearchOrder.dfy` | the order of entries and moves in a traversal |
| `TreeBuild.dfy` | building trees during a traversal, forward/backward adjacency lists |
| `TreeCompare.dfy` | simultaneous traversal of two CGNS trees, `is_same_tree` and `diff_tree` |
| `BlockToBlock.dfy` | redistribution between two block distributions, with constant or variable stride |
| `JoinNumbers.dfy`, `JoinRecovery.dfy`, `JoinSplit.dfy`, `DonorNames.dfy` | the join protocol: number joins, recover opposite entities, split per opposite partition, name opposites |
| `JoinProtocol.dfy` | the join protocol as a whole |
| `Conventions.dfy`, `Strings.dfy` | names of partitions and of split joins, order of texts, numbers in texts |
| `BlockSize.dfy` | size of a structured block, by walking through partition joins |
| `ConnectedZones.dfy` | groups of zones connected by matching joins |
| `LeftParent.dfy` | orientation of faces so that they have a left parent |
| `PointRanges.dfy` | repair of point ranges of structured joins |
| `WallDistance.dfy` | numbering of wall surfaces with periodic copies, and its decoding |
| `GhostRemoval.dfy` | removal of ghost elements and unused nodes |
| `StdElements.dfy` | prisms and hexahedra from polyhedral faces |
| `ElementSlices.dfy` | distribution of element sections, parts of the offset array in the file |
| `NodeWalk.dfy` | node searches, depth or breadth first, and the caching walker |
| `WalkListing.dfy` | what node searches yield, as filtered listings of the tree |
| `Arrays.dfy` | arrays of any number of dimensions, and compatible shapes |
| `Basics.dfy`, `Counting.dfy` | options, small facts, and counting, filtering and mapping of sequences, used by the other files |

How the model relates to the program:

- Ranks are modelled together: a distributed value is the sequence of what the ranks hold.  A collective call is a function
  of what all ranks pass.
- The exchange by shifted numbers of the join protocol is a parameter that hands out, for a number, what was posted under it,
  in any order (`JoinRecovery.Delivers`).
- Python dictionaries and lists are maps and sequences; numpy arrays and raw buffers that are updated in place are arrays.
- Integers are unbounded; float data is modelled by reals.
- Sorting by `np.argsort` promises a sorted result only: the order of ties is left open, and the mirror property of split joins
  is proved exactly where it does not depend on it (`JoinSplit.MirrorExactlyWhenSeparate`).

Where the code does less than its documentation says, the code is modelled and the exact condition is proved:

- `is_same_value` promises the same array length, but float arrays are compared with broadcasting
  (`TreeCompare.BroadcastPassesForEqual`, `TreeCompare.SameMeansEqual`).
- `diff_tree` compares texts after stripping blanks (`TreeCompare.BlankPassesForEqual`, `TreeCompare.NoDiffMeansEqual`).
- `diff_tree` raises instead of reporting a difference between short texts, or between long arrays whose shapes are not
  compatible (`TreeCompare.ShortTextsAreNotReported`, `TreeCompare.LongArraysAreNotReported`, `TreeCompare.DiffTree`).  Longer
  texts go to `np.equal`, which is taken to accept texts, as recent versions of numpy do.
- A zone that is missing from the tree may sit in several groups of `find_connected_zones`
  (`ConnectedZones.DisjointIffMissingAgree`).
- In write mode, the offset array of a section without elements is not written (`ElementSlices.WriteCoversOnce`).
- A depth window with a negative first level is accepted by the walker, and then the two search orders treat the root
  differently (`NodeWalk.DeepOrdersAgree`); shallow depth first search goes on below a selected root
  (`NodeWalk.ShallowOrdersAgree`).  A list of more than two levels is accepted when its first two are no proper window
  (`NodeWalk.NodesWalker.SetDepth`).
- The guess of which section comes first can fail on meshes with less than four faces per cell (`LeftParent.GuessFailsWhen`).

## Model

| member | source | states |
|---|---|---|
| `Traversal.TraversalStack.constructor` | maia/pytree/graph/algo.py:18-27 | a new stack stands at the first root, and what remains to be done from it is the whole recursive search |
| `Traversal.TraversalStack.PushSiblings` | maia/pytree/graph/algo.py:34-41 | a level is opened on the first sibling, or exhausted when there is none |
| `Traversal.TraversalStack.PopLevel` | maia/pytree/graph/algo.py:43-45 | exactly the innermost level is dropped |
| `Traversal.TraversalStack.AdvanceNodeRange` | maia/pytree/graph/algo.py:47-52 | the innermost level moves to its next sibling, the other levels are untouched |
| `Traversal.EnterStep` | maia/pytree/graph/algo.py:101-110 | entering a node and opening its children (or an exhausted level when pruned) leaves the rest of the recursive search to be done |
| `Traversal.LeaveStep` | maia/pytree/graph/algo.py:111-120 | leaving the parent of an exhausted level and moving on leaves the rest of the recursive search to be done |
| `Traversal.LeaveNode` | maia/pytree/graph/algo.py:111-120 | one turn of the leaving branch keeps the future of the search and strictly reduces the remaining work |
| `Traversal.RunStack` | maia/pytree/graph/algo.py:95-122 | the loop terminates for every finite graph and every visitor; it stops with the trace of the recursive search, or in a state that unwinding completes |
| `Traversal.Unwind` | maia/pytree/graph/algo.py:77-85 | from a stopped state, the calls made are those that close every open level |
| `Traversal.DepthFirstSearch` | maia/pytree/graph/algo.py:192-221 | the calls received by the visitor and the returned node are those of the recursive search |
| `Traversal.SearchIsBalanced` | maia/pytree/graph/algo.py:77-122 | every pre has its post and every down its up, properly nested, even when the search was stopped |
| `Traversal.SearchStopsAtFirst` | maia/pytree/graph/algo.py:192-221 | the returned node is the first entered node that asked to stop, no node is entered after it, and nothing is returned when none asked |
| `SearchOrder.SearchIsPreorder` | maia/pytree/graph/algo.py:95-122 | for every policy of which nodes to go below, nodes are entered in the order of a preorder listing of the graph, defined on its own, with roots and children as the graph enumerates them |
| `SearchOrder.SearchMoves` | maia/pytree/graph/algo.py:95-122 | a move down is followed by the entry in the child and a move up preceded by its exit, on the same branch; only roots are entered without a move |
| `TreeBuild.BuildVisitor.OnPre` | maia/pytree/graph/build.py:21-24 | entering a node opens an empty level |
| `TreeBuild.BuildVisitor.OnPost` | maia/pytree/graph/build.py:26-31 | leaving a node replaces the innermost level by the node built from it, one level up |
| `TreeBuild.LevelsFollowCalls` | maia/pytree/graph/build.py:26-35 | the levels of the builder follow the open nodes, so no pop ever meets an empty stack |
| `TreeBuild.SearchBuilds` | maia/pytree/graph/build.py:21-41 | after any search, under any into/over/out policy, one level is left and holds the recursively built trees |
| `TreeBuild.BuildTrees` | maia/pytree/graph/build.py:38-41 | building by traversal equals the recursive fold |
| `TreeBuild.Build` | maia/pytree/graph/build.py:43-61 | with a single root there is a single tree, the recursively built one |
| `TreeBuild.FbTreeConstructor.Call` | maia/pytree/graph/fb_graph.py:64-91 | the in-place linking and offsetting of sub-graphs computes the joined adjacency list with the new node last |
| `TreeBuild.AppendKeepsLinks` | maia/pytree/graph/fb_graph.py:71-87 | appending a sub-graph keeps forward and backward indices inverse of each other |
| `TreeBuild.FbNodeRepresents` | maia/pytree/graph/fb_graph.py:68-91 | the list made for a node unfolds to its tree, is linked both ways and lists values in postorder |
| `TreeBuild.BuildFbTree` | maia/pytree/graph/fb_graph.py:94-96 | the built list is in postorder with the root last, unfolds to the source tree, and forward and backward indices are mutual inverses |
| `TreeCompare.SetIntersectionDifference` | maia/pytree/algo_utils.py:54-85 | the two-cursor loop returns the recursive merge of the two lists |
| `TreeCompare.SplitMembers` | maia/pytree/algo_utils.py:54-85 | every element of either list ends up in exactly its own common or lonely part, and nothing else does |
| `TreeCompare.MergePairsNamesakes` | maia/pytree/algo_utils.py:71-82 | on lists sorted by name, paired elements have the same name |
| `TreeCompare.MergeLeavesStrangers` | maia/pytree/algo_utils.py:71-84 | on lists sorted by name, a lonely element has no namesake in the other list |
| `TreeCompare.ZipLists` | maia/pytree/graph/cgns.py:29-45 | common elements are paired, then lonely ones are paired off |
| `TreeCompare.LonelyArePairedOff` | maia/pytree/graph/cgns.py:29-45 | lonely elements of both lists are paired off in order after the common ones, the longer list ending alone |
| `TreeCompare.ZipChildCases` | maia/pytree/graph/cgns.py:54-63 | a child pair is a pair of namesakes, or a child without namesake |
| `TreeCompare.ZipGraphIsFinite` | maia/pytree/graph/cgns.py:54-66 | the simultaneous traversal of two trees is finite |
| `TreeCompare.ReorderedIsZipOk` | maia/pytree/graph/cgns.py:54-66 | trees equal up to the order of siblings are met pair by pair |
| `TreeCompare.ZipOkIsReordered` | maia/pytree/graph/cgns.py:54-66 | trees met pair by pair are equal up to the order of siblings |
| `TreeCompare.TraversalDecides` | maia/pytree/compare.py:122-142 | for any node relation that respects names, the simultaneous traversal decides equality up to reordering of siblings |
| `TreeCompare.IsSameTree` | maia/pytree/compare.py:122-142 | the verdict is "same" exactly when the trees are equal up to reordering of siblings under the node comparison; otherwise it is the verdict on the first unequal pair met, in the order of the traversal |
| `TreeCompare.SameNodeMeans` | maia/pytree/compare.py:96-119 | for every tolerance: nodes with equal float shapes are the same exactly when names and labels are equal, types agree (up to their size if tolerated), contents are equal, and floats differ by at most the tolerance at every index |
| `TreeCompare.SameNodeFails` | maia/pytree/compare.py:96-119 | comparing two nodes fails exactly when names, labels and float types agree but the shapes cannot be aligned |
| `TreeCompare.SameMeansUpTo` | maia/pytree/compare.py:122-142 | for every tolerance: the verdict "same" means agreement of the trees up to it exactly when float arrays at common paths have equal shapes |
| `TreeCompare.SameVerdictMeans` | maia/pytree/compare.py:122-142 | the comparison can only raise when float arrays at a common path differ in shape |
| `TreeCompare.AllMetAreRelated` | maia/pytree/compare.py:127-132 | the traversal stops nowhere exactly when all pairs it meets are equal nodes |
| `Arrays.CloseIsEqual` | maia/pytree/compare.py:108-109 | without tolerance, arrays of the same shape, of any number of dimensions, are close exactly when they are equal |
| `Arrays.BroadcastableIsAligned` | maia/pytree/compare.py:108-109 | shapes are compatible exactly when, aligned on their last dimensions, they agree wherever none is 1 |
| `Arrays.CloseIsEverywhere` | maia/pytree/compare.py:108-109 | compatible arrays with as many dimensions are close exactly when the numbers that meet at every index of the common shape differ by at most the tolerance, dimensions of size 1 being repeated |
| `Arrays.SameShapeClose` | maia/pytree/compare.py:108-109 | arrays of the same shape are close exactly when their numbers are at every index |
| `Arrays.LeadOnLeft` | maia/pytree/compare.py:108-109 | a missing first dimension of the first array counts as one of size 1 |
| `Arrays.LeadOnRight` | maia/pytree/compare.py:108-109 | a missing first dimension of the second array counts as one of size 1 |
| `TreeCompare.DiffTreeVisitor.ZipPath` | maia/pytree/compare.py:162-169 | the path text is that of both trees: names agree at every level |
| `TreeCompare.PathAsWritten` | maia/pytree/compare.py:162-169 | the path of a zone in a base is written /Base/Zone/ |
| `TreeCompare.DiffTreeVisitor.OnPre` | maia/pytree/compare.py:171-220 | the verdict accumulates the comparison of every pair entered; the call raises exactly when unequal values cannot be reported, and then leaves the verdict as it was |
| `TreeCompare.DiffTree` | maia/pytree/compare.py:225-242 | with strict types or not, the comparison raises exactly when the roots are namesakes and some common path has unequal values that cannot be reported; otherwise the verdict holds exactly when the trees are equal up to reordering under the exact node comparison |
| `TreeCompare.ReportedIsCommon` | maia/pytree/compare_arrays.py:6-32 | no pair entered by the full traversal raises exactly when no common path does |
| `TreeCompare.DiffSearch` | maia/pytree/compare.py:162-169 | in every run, the ancestors of every pair entered are namesakes, so the name assertion never fails |
| `TreeCompare.DiffNodeMeans` | maia/pytree/compare.py:171-204 | nodes show no difference exactly when names and labels are equal, types agree (strictly or up to their size), numbers are equal and texts are shown alike |
| `TreeCompare.StripTrims` | maia/pytree/node/access.py:90-93 | a text is shown without exactly its surrounding blanks |
| `TreeCompare.DropNullsCuts` | maia/pytree/compare_arrays.py:6-7 | numpy compares texts without exactly the null characters at their end |
| `TreeCompare.TextsReported` | maia/pytree/compare_arrays.py:12-25 | for all texts: different texts make the report raise exactly when the first has less than ten characters without its blanks |
| `TreeCompare.LinesReported` | maia/pytree/compare_arrays.py:6-25 | for all arrays of one dimension: unequal arrays make the report raise exactly when the first has ten elements or more and the other another length, not 1 |
| `TreeCompare.SameMeansEqual` | maia/pytree/compare.py:96-119 | with the default tolerance the verdict means equality of trees exactly when float arrays at common paths have equal shapes |
| `TreeCompare.NoDiffMeansEqual` | maia/pytree/compare.py:225-242 | the accumulated verdict means equality of trees exactly when texts at common paths that are shown alike are equal, and types too when they are not compared strictly |
| `TreeCompare.VerdictsAgree` | maia/pytree/compare.py:122-242 | when shapes and texts at common paths agree, both comparisons return the same verdict if and only if no common path has unequal values that cannot be reported |
| `TreeCompare.BroadcastPassesForEqual` | maia/pytree/compare.py:108-109 | one input: two different trees whose float arrays have different lengths are declared the same |
| `TreeCompare.BlankPassesForEqual` | maia/pytree/compare.py:171-204 | one input: two trees that differ in a trailing blank get different verdicts from the two comparisons |
| `TreeCompare.ShortTextsAreNotReported` | maia/pytree/compare_arrays.py:12-19 | one input: two short texts that differ are declared different by one comparison, and make the other raise |
| `TreeCompare.LongArraysAreNotReported` | maia/pytree/compare_arrays.py:24-25 | for any integer array of ten elements or more, compared with its first two: one comparison declares them different, the other raises |
| `BlockToBlock.UniformTiles` | maia/utils/py_utils.py:102-115 | the uniform intervals tile [0, n) in order; the first n modulo size of them have one entity more than the others |
| `BlockToBlock.OverlapCut` | maia/transfer/_protocols/block_to_block.py:3-4 | the overlap of two intervals is the length that one cuts out of the other |
| `BlockToBlock.CountsTotal` | maia/transfer/_protocols/block_to_block.py:16-24 | the counts of a rank add up to its interval: both sum assertions hold |
| `BlockToBlock.FillCounts` | maia/transfer/_protocols/block_to_block.py:16-24 | the counts towards and from every rank, with both sums equal to the local sizes |
| `BlockToBlock.BlockToBlock.constructor` | maia/transfer/_protocols/block_to_block.py:8-26 | an exchange object holds the overlap counts of its rank |
| `BlockToBlock.ExpectedIsSent` | maia/transfer/_protocols/block_to_block.py:19-21 | what rank r expects from s is what s sends to r |
| `BlockToBlock.Alltoallv` | maia/transfer/_protocols/block_to_block.py:38-38 | every rank receives the chunks meant for it, in the order of the senders |
| `BlockToBlock.ExchangeMovesCuts` | maia/transfer/_protocols/block_to_block.py:29-63 | an exchange cut by overlaps moves the cut points and nothing else, for items of any width |
| `BlockToBlock.MoveItems` | maia/transfer/_protocols/block_to_block.py:61-61 | the collective call with matching item counts gives every rank its slice |
| `BlockToBlock.ReadCounts` | maia/transfer/_protocols/block_to_block.py:16-21 | the counts held by all ranks are the overlap counts of both distributions |
| `BlockToBlock.ExchangeConstant` | maia/transfer/_protocols/block_to_block.py:31-39 | with a constant stride every rank ends up with exactly its output slice of the global array |
| `BlockToBlock.SumPortions` | maia/transfer/_protocols/block_to_block.py:47-57 | the cursor loop sums consecutive portions of the stride array |
| `BlockToBlock.PortionCounts` | maia/transfer/_protocols/block_to_block.py:47-57 | on every rank the item counts are the sums of consecutive portions of the strides it holds |
| `BlockToBlock.PortionsMatch` | maia/transfer/_protocols/block_to_block.py:47-57 | the item counts that all ranks compute from the strides they hold are those of the overlaps |
| `BlockToBlock.PortionsAreCuts` | maia/transfer/_protocols/block_to_block.py:51-57 | portions cut by entity counts are the item counts of the overlaps |
| `BlockToBlock.ExchangeVariable` | maia/transfer/_protocols/block_to_block.py:41-63 | with a variable stride every rank ends up with its slice of the strides and of the items |
| `BlockToBlock.ExchangeKeepsArray` | maia/transfer/_protocols/block_to_block.py:29-63 | the concatenation over the ranks is unchanged |
| `BlockToBlock.ThereAndBack` | maia/transfer/_protocols/block_to_block.py:31-39 | with a constant stride, going to another distribution and back gives every rank its data again |
| `BlockToBlock.ThereAndBackVariable` | maia/transfer/_protocols/block_to_block.py:41-63 | with a variable stride, going to another distribution and back gives every rank its strides and its data again |
| `BlockToBlock.SerialAgrees` | maia/transfer/_protocols/block_to_block.py:65-78 | when both distributions are equal the general exchange returns what the copying one does |
| `BlockToBlock.ExpandParts` | maia/transfer/protocols.py:10-17 | from the parts of all ranks every rank recovers the full distribution |
| `BlockToBlock.ExpandFull` | maia/transfer/protocols.py:15-20 | a full distribution is left alone, also when it has the length of a part |
| `JoinNumbers.MatchingJoins` | maia/algo/dist/matching_jns_tools.py:175-182 | every join of the initial tree is in exactly one sorted pair, with its opposite |
| `JoinNumbers.Interfaces` | maia/transfer/dist_to_part/recover_jn.py:20-24 | every join is given the position of the pair it is in |
| `JoinNumbers.NumberJoin` | maia/transfer/dist_to_part/recover_jn.py:42-43 | the number of a join tells its pair and, by the order of the two paths, its side of it |
| `JoinNumbers.NumberJoins` | maia/transfer/dist_to_part/recover_jn.py:36-43 | all joins are numbered |
| `JoinNumbers.NumberTellsOrder` | maia/transfer/dist_to_part/recover_jn.py:42-43 | the number is odd exactly when the path of the join comes before that of its opposite in the order of a dictionary |
| `JoinNumbers.NumbersOppose` | maia/transfer/dist_to_part/recover_jn.py:42-43 | two joins have the same number exactly when they are one join, and opposite numbers exactly when they are opposite joins |
| `JoinRecovery.OppositeIsOther` | maia/transfer/dist_to_part/recover_jn.py:42-43 | the two sides of an interface are told apart by their number, and opposing is symmetric |
| `JoinRecovery.ShiftSeparates` | maia/transfer/dist_to_part/recover_jn.py:28-47 | shifted numbers are equal only for the same entity of the same interface |
| `JoinRecovery.PostedFromInterface` | maia/transfer/dist_to_part/recover_jn.py:95-97 | everything received for an entity comes from the two sides of its interface |
| `JoinRecovery.ScanCandidates` | maia/transfer/dist_to_part/recover_jn.py:86-99 | the scan counts the candidates of the opposite side and tells whether the entity itself is among them |
| `JoinRecovery.CountMatches` | maia/transfer/dist_to_part/recover_jn.py:83-102 | the first pass counts the matches of every entity; both of its assertions hold |
| `JoinRecovery.CandidatesSuffice` | maia/transfer/dist_to_part/recover_jn.py:101-101 | every entity finds at least one match |
| `JoinRecovery.AreMatched` | maia/transfer/dist_to_part/recover_jn.py:101-102 | every entity finds a match and finds itself |
| `JoinRecovery.Resize` | maia/transfer/dist_to_part/recover_jn.py:105-108 | the grown array repeats the initial one |
| `JoinRecovery.Grow` | maia/transfer/dist_to_part/recover_jn.py:104-111 | the buffers have the size of the recovered join and begin with the initial entities |
| `JoinRecovery.PutFirst` | maia/transfer/dist_to_part/recover_jn.py:119-123 | the first match is registered in place |
| `JoinRecovery.PutExtra` | maia/transfer/dist_to_part/recover_jn.py:124-130 | another match is written at the cursor, within bounds |
| `JoinRecovery.FillEntity` | maia/transfer/dist_to_part/recover_jn.py:114-132 | all matches of an entity are registered, the first in place, the others at the end |
| `JoinRecovery.FillMatches` | maia/transfer/dist_to_part/recover_jn.py:110-134 | the second pass fills exactly the allocated rows: the cursor ends at the new size |
| `JoinRecovery.ExpandJoin` | maia/transfer/dist_to_part/recover_jn.py:76-138 | one join is recovered: first matches in place, the others at the end |
| `JoinRecovery.Receive` | maia/transfer/dist_to_part/recover_jn.py:55-64 | the strides and tuples that a join receives |
| `JoinRecovery.GetPointListDonors` | maia/transfer/dist_to_part/recover_jn.py:66-139 | every join of every partition is recovered |
| `JoinRecovery.RecoveredIsRelation` | maia/transfer/dist_to_part/recover_jn.py:81-134 | a row occurs in the recovered join as often as there are pairs of a local occurrence and an opposite occurrence of its interface entity: exactly the relation, each pair once |
| `JoinRecovery.EntitiesStayInPlace` | maia/transfer/dist_to_part/recover_jn.py:110-134 | the entities of the join come first, in their order, and the rest repeats some of them |
| `JoinSplit.ArgSort` | maia/factory/partitioning/post_split.py:150-150 | indices that sort the keys, ties in an unspecified order |
| `JoinSplit.UniqueParts` | maia/factory/partitioning/post_split.py:131-131 | the sorted distinct opposite partitions |
| `JoinSplit.FirstNotBelow` | maia/factory/partitioning/post_split.py:150-150 | the place of a key among sorted ones |
| `JoinSplit.OneReference` | maia/factory/partitioning/post_split.py:146-149 | two partitions that compare the same two paths on their own never agree to be the reference: exactly one side is |
| `JoinSplit.PathsDiffer` | maia/factory/partitioning/post_split.py:146-147 | different joins have different paths, since names have no slash |
| `Strings.LessIsPrecedes` | maia/factory/partitioning/post_split.py:149-149 | texts are ordered as in a dictionary: a proper beginning comes first, otherwise the smaller character at the first difference |
| `JoinSplit.KeysFollowPaths` | maia/factory/partitioning/post_split.py:145-153 | the ids of the side whose path comes first in the dictionary are in increasing order |
| `JoinSplit.ExtractSubJoin` | maia/factory/partitioning/post_split.py:137-153 | the entries facing one partition, sorted by the id of the side whose path comes first |
| `JoinSplit.SplitJoin` | maia/factory/partitioning/post_split.py:126-157 | one sub-join per opposite partition, in order, holding exactly the entries that face it |
| `JoinSplit.FacingIsProduct` | maia/factory/partitioning/post_split.py:137-142 | between two partitions an entry occurs as often as both hold its entity |
| `JoinSplit.HalvesHaveSamePairs` | maia/factory/partitioning/post_split.py:131-157 | two partitions facing each other find the same pairs, seen from the other side |
| `JoinSplit.FacingIsShared` | maia/factory/partitioning/post_split.py:137-142 | the entries of a sub-join are those whose entity both partitions have |
| `JoinSplit.HalvesMirror` | maia/factory/partitioning/post_split.py:131-157 | the halves of a sub-join, for which each partition finds the reference side and sorts on its own, are mirror images entry by entry with equal interface numbers, when shared entries have different ids on the reference side |
| `JoinSplit.UnrepeatingSeparates` | maia/factory/partitioning/post_split.py:144-153 | ids and numbers that do not repeat within a join are enough, whichever side is the reference |
| `JoinSplit.SeparateIsUnambiguous` | maia/factory/partitioning/post_split.py:144-153 | the sort keys of a recovered sub-join separate its entries exactly when the initial joins of the two partitions share no two entries with the same reference id |
| `JoinSplit.MirrorExactlyWhenSeparate` | maia/factory/partitioning/post_split.py:144-153 | whatever the order of ties, the halves mirror each other if and only if the joins given to the protocol share no two different entries with the same id on the reference side |
| `JoinSplit.RepeatedNumberBreaksMirror` | maia/factory/partitioning/post_split.py:144-153 | one input: an interface number repeated within one partition breaks the mirror although local ids do not repeat |
| `Conventions.PartRoundTrip` | maia/pytree/maia/conventions.py:5-19 | a partition suffix can be read back and removed, whatever the name |
| `Conventions.SplitRoundTrip` | maia/pytree/maia/conventions.py:21-28 | a split suffix can be removed, whatever the name |
| `Conventions.PartNamesDiffer` | maia/pytree/maia/conventions.py:5-19 | different partitions or zones have different names |
| `Conventions.SplitNamesDiffer` | maia/pytree/maia/conventions.py:21-28 | different joins or split numbers have different names |
| `Conventions.IntraNameIsIntra` | maia/pytree/maia/conventions.py:36-40 | the name made for a join between partitions of one zone is recognized |
| `Conventions.SplitKeepsKind` | maia/pytree/maia/conventions.py:21-40 | a split suffix never makes the name of an initial join look like one of these |
| `Conventions.IntraIsPattern` | maia/pytree/maia/conventions.py:39-40 | a join is taken to be between partitions of one zone exactly when its name begins with JN.P, a number, .N, a number, .LT.P, a number, .N and a number |
| `Conventions.SplitNumber` | maia/pytree/maia/conventions.py:21-22 | what follows the last dot of a split name is the split number |
| `Conventions.NamesAsWritten` | maia/pytree/maia/conventions.py:5-37 | one input each: Zone.P3.N12, match.10, JN.P0.N1.LT.P2.N3 |
| `DonorNames.BuildSends` | maia/factory/partitioning/post_split.py:178-184 | each rank is sent the messages of the joins whose opposite zone it holds, in order |
| `DonorNames.PickDonor` | maia/factory/partitioning/post_split.py:198-201 | the name of the only candidate, nothing when there is not exactly one |
| `DonorNames.ExactlyOneCandidate` | maia/factory/partitioning/post_split.py:197-201 | the handshake finds exactly one candidate: the opposite join |
| `DonorNames.SendAll` | maia/factory/partitioning/post_split.py:178-186 | what every rank sends to every rank |
| `DonorNames.NameOne` | maia/factory/partitioning/post_split.py:188-203 | one join gets the name of its opposite, by the handshake or, between partitions of one zone, without communication |
| `DonorNames.IntraNamesOppose` | maia/factory/partitioning/post_split.py:192-195 | joins between two partitions of one zone name each other |
| `DonorNames.NameRank` | maia/factory/partitioning/post_split.py:188-203 | on one rank, every join gets the name of its opposite |
| `DonorNames.UpdateDonorNames` | maia/factory/partitioning/post_split.py:171-203 | over all ranks, every join gets the name of its opposite |
| `DonorNames.NamingIsInvolution` | maia/factory/partitioning/post_split.py:171-203 | following the donor name twice leads back, and both joins join the same two zones, also when these are one zone |
| `DonorNames.OriginIsUnique` | maia/factory/partitioning/post_split.py:198-200 | the names by which candidates are selected determine a sub-join |
| `DonorNames.FacedIsDonor` | maia/factory/partitioning/post_split.py:131-137 | sub-joins are made for exactly the partitions that a recovered join faces |
| `DonorNames.FacedFacesBack` | maia/factory/partitioning/post_split.py:129-137 | the partition that a join faces has a join that faces back |
| `DonorNames.SplitIsPaired` | maia/factory/partitioning/post_split.py:116-203 | the joins that come out of recovery and splitting meet all that the handshake needs |
| `JoinProtocol.SplitOne` | maia/factory/partitioning/post_split.py:126-157 | splitting a recovered join gives one sub-join for each partition that it faces, in order |
| `JoinProtocol.RecoverAndSplit` | maia/factory/partitioning/post_split.py:266-267 | recovery and splitting composed, for all joins of all partitions |
| `JoinProtocol.TreeIsSpelled` | maia/factory/partitioning/post_split.py:132-136 | every sub-join is named after its join, followed by the number of faced partitions that come before the one it faces; it lies in the partition of the join and points to the faced partition of the opposite zone |
| `JoinProtocol.NamesTellApart` | maia/factory/partitioning/post_split.py:133-133 | no two sub-joins of a zone share a name, over all ranks |
| `JoinProtocol.DonorIsUnique` | maia/factory/partitioning/post_split.py:188-203 | the opposite zone and the donor name of a sub-join lead to exactly one join, which leads back |
| `JoinProtocol.OppositesNameEachOther` | maia/factory/partitioning/post_split.py:266-273 | every sub-join has an opposite sub-join on the partition it faces, and both carry the name of the other |
| `JoinProtocol.OppositesMirror` | maia/factory/partitioning/post_split.py:266-267 | the two sub-joins are mirror images when shared entries have different reference ids |
| `JoinProtocol.RunProtocol` | maia/factory/partitioning/post_split.py:266-273 | the whole protocol, on all ranks: the tree holds exactly one sub-join per join and faced partition, numbered in the order of the faced partitions; names are unique within a zone and donor names lead to exactly one join and back; every sub-join is sorted by the ids of the side whose path comes first, and mirrors its partner whenever shared entries have different ids on that side |
| `BlockSize.NormalAxisIsConstant` | maia/pytree/sids/node_inspect.py:843-872 | the normal axis of a face is its only constant axis |
| `BlockSize.NormalIsOnlyConstant` | maia/pytree/sids/node_inspect.py:843-872 | the normal axis is told exactly when there is only one constant axis |
| `BlockSize.JoinReads` | maia/factory/dist_from_part.py:148-150 | a join tells the axis and the side of the face it lies on |
| `BlockSize.NeighbourTouches` | maia/factory/dist_from_part.py:146-155 | in a tiling, the partition that holds the next cell begins where the current one ends |
| `BlockSize.NextJoinExists` | maia/factory/dist_from_part.py:146-155 | as long as the end of the block is not reached there is a join to go on |
| `BlockSize.FindNext` | maia/factory/dist_from_part.py:148-155 | the first join in the direction of the walk, if there is one |
| `BlockSize.Walk` | maia/factory/dist_from_part.py:144-155 | the walk terminates and adds exactly the cells between the partition and the end of the block |
| `BlockSize.RecoverBlockSize` | maia/factory/dist_from_part.py:136-157 | for every tiling, every starting partition and every order of the joins, the original dimensions are returned |
| `ConnectedZones.AppendUnique` | maia/pytree/sids/utils.py:26-29 | an item is added once |
| `ConnectedZones.StartGroup` | maia/pytree/sids/node_inspect.py:66-70 | the zone itself and the zones at the other end of its matching non-periodic joins, each once |
| `ConnectedZones.StartGroups` | maia/pytree/sids/node_inspect.py:60-71 | one group per zone: itself and the zones at the other end of its matching non-periodic joins |
| `ConnectedZones.FindGroups` | maia/pytree/sids/node_inspect.py:74-77 | exactly the positions of the groups that contain the zone, increasing |
| `ConnectedZones.AppendAll` | maia/pytree/sids/node_inspect.py:82-83 | the union of two lists, without repetition |
| `ConnectedZones.MergeAt` | maia/pytree/sids/node_inspect.py:73-84 | popping from the last index, all groups with the zone are replaced by their union at the end |
| `ConnectedZones.MergeIsSound` | maia/pytree/sids/node_inspect.py:73-84 | merging keeps groups linked, keeps joined zones together and loses no zone |
| `ConnectedZones.MergeSettles` | maia/pytree/sids/node_inspect.py:73-84 | after its turn a zone is in one group, and stays so |
| `ConnectedZones.MergeGroups` | maia/pytree/sids/node_inspect.py:65-84 | after all zones had their turn the groups are the connected components |
| `ConnectedZones.Sort` | maia/pytree/sids/node_inspect.py:85-85 | the same paths in increasing order |
| `ConnectedZones.SortGroups` | maia/pytree/sids/node_inspect.py:85-85 | every group keeps its members and is sorted |
| `ConnectedZones.MergeRanks` | maia/pytree/sids/node_inspect.py:73-84 | merging keeps the groups in the order of the last zone that had its turn |
| `ConnectedZones.OtherJoinsDoNotLink` | maia/pytree/sids/node_inspect.py:60-63 | joins that are periodic or not one-to-one link no zones: without others, every zone stays alone |
| `ConnectedZones.OneLinkSuffices` | maia/pytree/sids/node_inspect.py:60-70 | one join that is one-to-one and not periodic puts both zones in one group, whichever declares it |
| `ConnectedZones.FindConnectedZones` | maia/pytree/sids/node_inspect.py:58-85 | each zone is in exactly one group, a group is exactly a connected component, sorted, and groups come in the order of their last zones in the tree |
| `ConnectedZones.ShareGroupIffLinked` | maia/pytree/sids/node_inspect.py:58-85 | two zones share a group if and only if a path of joins links them |
| `ConnectedZones.DisjointIffMissingAgree` | maia/pytree/sids/node_inspect.py:65-85 | groups are disjoint if and only if no zone missing from the tree is declared by zones that are not linked |
| `ConnectedZones.MissingZoneInTwoGroups` | maia/pytree/sids/node_inspect.py:65-85 | one input: a tree where a missing zone sits in two groups |
| `LeftParent.GuessIsRight` | maia/algo/part/part_algo.pybind.cpp:40-49 | when every cell has four faces or more, the guess of which section comes first is right |
| `LeftParent.GuessFailsWhen` | maia/algo/part/part_algo.pybind.cpp:40-49 | the guess is right if and only if faces come first or the parents of the first face do not exceed the number of faces |
| `LeftParent.WrongGuess` | maia/algo/part/part_algo.pybind.cpp:40-60 | one input: a mesh of two cells and one face, cells first, on which the guess fails and the face is sought in the wrong cell |
| `LeftParent.ReverseRange` | maia/algo/part/part_algo.pybind.cpp:70-70 | the range is reversed in place, the rest is untouched |
| `LeftParent.FindFace` | maia/algo/part/part_algo.pybind.cpp:61-63 | the first mention of a face in the row of a cell |
| `LeftParent.TurnInCell` | maia/algo/part/part_algo.pybind.cpp:57-67 | the only mention of the face changes sign |
| `LeftParent.TurnVertices` | maia/algo/part/part_algo.pybind.cpp:69-70 | the vertices of the face are reversed, other faces are untouched |
| `LeftParent.EnforceLeftParent` | maia/algo/part/part_algo.pybind.cpp:20-73 | in place, every face without left parent is turned: parents, vertices and sign; nothing else changes |
| `LeftParent.ResultTurns` | maia/algo/part/part_algo.pybind.cpp:51-72 | the arrays left by the routine describe the turned mesh |
| `LeftParent.TurnedHasLeftParent` | maia/algo/part/part_algo.pybind.cpp:52-55 | every face has a left parent |
| `LeftParent.OnlyOrphansTurn` | maia/algo/part/part_algo.pybind.cpp:51-71 | faces that have a left parent keep parents, vertices and signs; the other ones get their only parent on the left, reversed vertices and the opposite sign |
| `LeftParent.TurnedIsConsistent` | maia/algo/part/part_algo.pybind.cpp:52-67 | parents of faces and signed faces of cells still say the same |
| `LeftParent.TurnedKeepsOutward` | maia/algo/part/part_algo.pybind.cpp:52-71 | every cell keeps its outward vertex cycles |
| `LeftParent.TurnedIsSeenAlike` | maia/algo/part/part_algo.pybind.cpp:52-71 | every parent sees its faces as before, also without cell descriptions |
| `LeftParent.TurningTwice` | maia/algo/part/part_algo.pybind.cpp:51-72 | doing it again changes nothing |
| `PointRanges.DotIsSigned` | maia/pytree/sids/node_inspect.py:703-710 | the transform matrix moves each component to its axis, with its sign |
| `PointRanges.TransformAt` | maia/pytree/utils.py:5-6 | each component of a transformed point |
| `PointRanges.TransformRoundTrip` | maia/pytree/utils.py:5-22 | with inverse transforms, going to the opposite zone and back is the identity |
| `PointRanges.AssertionIffExtentsAgree` | maia/io/fix_tree.py:50-68 | the final assertion holds if and only if the absolute extents agree under the transform |
| `PointRanges.WindowsKept` | maia/io/fix_tree.py:58-66 | both windows keep their set of points |
| `PointRanges.TransformMapsWindow` | maia/io/fix_tree.py:68-68 | once ends match, the transform sends the window onto the opposite window |
| `PointRanges.OneSideIsReference` | maia/algo/dist/matching_jns_tools.py:8-40 | exactly one side of a pair is the reference, or neither can tell |
| `PointRanges.ReferenceComesFirst` | maia/algo/dist/matching_jns_tools.py:8-40 | the reference is the side whose zone comes first in the dictionary; within one zone the face with the smaller normal axis, then the smaller position, then the smaller sum |
| `PointRanges.SumIsTotal` | maia/algo/dist/matching_jns_tools.py:37-40 | the sum of a range takes both ends of every axis |
| `PointRanges.PairStaysSymmetric` | maia/io/fix_tree.py:32-68 | ranges of a pair remain mirror images although each join is repaired on its own |
| `PointRanges.FindMismatches` | maia/io/fix_tree.py:50-53 | the axes along which the ranges do not go the same way |
| `PointRanges.MoveMarks` | maia/io/fix_tree.py:59-60 | the marks of the corresponding axes of the opposite zone |
| `PointRanges.SwapEnds` | maia/io/fix_tree.py:62-66 | ends are swapped along the marked axes only |
| `PointRanges.FixRanges` | maia/io/fix_tree.py:46-68 | the in-place repair: when ranges disagree, the side that comes first keeps its range; it fails exactly when ranges disagree and no side comes first, or when absolute extents disagree |
| `WallDistance.Numbering.constructor` | maia/algo/part/wall_distance.py:60-61 | numbering starts at 0 |
| `WallDistance.Numbering.PushOffsets` | maia/algo/part/wall_distance.py:71-82 | a slot is as wide as the greatest number of the surface over all ranks |
| `WallDistance.Numbering.ShiftAndPush` | maia/algo/part/wall_distance.py:66-94 | a surface is stored with its numbers shifted by the offset of its slot |
| `WallDistance.Numbering.PushCopy` | maia/algo/part/wall_distance.py:96-111 | a periodic copy takes a slot of the same width, in its moved position |
| `WallDistance.Numbering.PushBoth` | maia/algo/part/wall_distance.py:140-149 | a surface is followed by its two copies along a periodicity |
| `WallDistance.Numbering.PushAll` | maia/algo/part/wall_distance.py:138-149 | every surface collected so far gets both copies |
| `WallDistance.Numbering.PushPeriod` | maia/algo/part/wall_distance.py:135-151 | one more periodicity triples the number of slots |
| `WallDistance.Numbering.AddDomain` | maia/algo/part/wall_distance.py:126-151 | a domain takes exactly 3^k consecutive slots for k periodicities |
| `WallDistance.StoredOnce` | maia/algo/part/wall_distance.py:133-151 | the surface is stored exactly once in every combination of moves |
| `WallDistance.SetupSurfaces` | maia/algo/part/wall_distance.py:113-151 | every domain takes its slots one after the other, each slot holding its shifted surface in its own position |
| `WallDistance.OffsetsSorted` | maia/algo/part/wall_distance.py:76-76 | offsets do not decrease, empty surfaces included |
| `WallDistance.SearchRight` | maia/algo/part/wall_distance.py:252-252 | the first offset beyond a value |
| `WallDistance.StoredFace` | maia/algo/part/wall_distance.py:84-87 | a stored face number is a local number plus the offset of its slot |
| `WallDistance.StoredVertex` | maia/algo/part/wall_distance.py:84-87 | a stored vertex number is a local number plus the offset of its slot, and does not exceed the next offset |
| `WallDistance.SlotIsAsWide` | maia/algo/part/wall_distance.py:71-82 | for faces and for vertices, the step between offsets is at least every number of the surface on any rank, and is one of them, or 0 |
| `WallDistance.VerticesApart` | maia/algo/part/wall_distance.py:84-87 | vertices stored in different slots never have the same number |
| `WallDistance.FacesApart` | maia/algo/part/wall_distance.py:84-87 | faces stored in different slots never have the same number |
| `WallDistance.TwoPeriodicities` | maia/algo/part/wall_distance.py:133-151 | one input: with two periodicities, the order of the nine copies |
| `WallDistance.DecodeFace` | maia/algo/part/wall_distance.py:250-256 | for every encoded face, decoding recovers the original domain and the local number |
| `GhostRemoval.ElementPermutation` | maia/__old/transform/remove_ghost_info.cpp:79-97 | new positions of all elements, -2 for ghosts, and the bounds of the owned sections |
| `GhostRemoval.RenumberElements` | maia/__old/transform/renumber_point_lists.cpp:21-25 | a face list is renumbered by the permutation |
| `GhostRemoval.RenumberFaces` | maia/__old/transform/renumber_point_lists.cpp:74-78 | all face lists of the zone are renumbered |
| `GhostRemoval.ElementFindsRow` | maia/__old/transform/remove_ghost_info.cpp:91-111 | an owned element gets the number of the row that holds it, a ghost gets -1 |
| `GhostRemoval.SectionsStayContiguous` | maia/__old/transform/remove_ghost_info.cpp:107-111 | new sections are numbered one after the other, from 1 |
| `GhostRemoval.TruncatePools` | maia/__old/transform/remove_ghost_info.cpp:107-128 | each section keeps the rows of its owned elements |
| `GhostRemoval.TruncatePool` | maia/__old/transform/remove_ghost_info.cpp:109-124 | one section keeps the rows of its owned elements under its new range |
| `GhostRemoval.MarkUsed` | maia/__old/transform/remove_ghost_info.cpp:133-140 | the nodes used by remaining elements are marked |
| `GhostRemoval.CompactNodes` | maia/__old/transform/remove_ghost_info.cpp:133-150 | used nodes get their rank among used nodes, others -1 |
| `GhostRemoval.RankIncreases` | maia/__old/transform/remove_ghost_info.cpp:141-148 | the renumbering keeps the order of the used nodes |
| `GhostRemoval.RankHits` | maia/__old/transform/remove_ghost_info.cpp:141-148 | the renumbering leaves no gap |
| `GhostRemoval.CompactCoordinates` | maia/__old/transform/remove_ghost_info.cpp:158-170 | coordinates move to the new positions |
| `GhostRemoval.MoveCoordinates` | maia/__old/transform/remove_ghost_info.cpp:158-170 | all coordinate arrays hold, at the rank of a used node, its coordinate |
| `GhostRemoval.RenumberConnectivity` | maia/__old/transform/remove_ghost_info.cpp:175-181 | every corner gets the rank of its node among the used ones |
| `GhostRemoval.RenumberSections` | maia/__old/transform/remove_ghost_info.cpp:175-181 | all sections are renumbered |
| `GhostRemoval.RenumberNodes` | maia/__old/transform/renumber_point_lists.cpp:33-42 | node lists are renumbered, unused nodes become -1 |
| `GhostRemoval.RenumberLists` | maia/__old/transform/renumber_point_lists.cpp:79-93 | all vertex lists, own or donated, are renumbered |
| `GhostRemoval.SortSections` | maia/__old/transform/remove_ghost_info.cpp:74-75 | the sections in the order of their ranges |
| `GhostRemoval.Zone.CleanSections` | maia/__old/transform/remove_ghost_info.cpp:79-187 | a zone with ordered sections is cleaned: sections, coordinates, lists, sizes |
| `GhostRemoval.Zone.RemoveGhostInfo` | maia/__old/transform/remove_ghost_info.cpp:72-187 | a zone with sections in any order, contiguous once sorted, is sorted and cleaned: sections, coordinates, lists, sizes |
| `GhostRemoval.ElementKeepsCoordinates` | maia/__old/transform/remove_ghost_info.cpp:117-181 | every owned element names nodes with the same coordinates as before |
| `GhostRemoval.ListKeepsCoordinates` | maia/__old/transform/renumber_point_lists.cpp:33-42 | an entry of a vertex list leads to the same coordinates as before, or is -1 exactly when no element uses the vertex |
| `GhostRemoval.FaceEntryFindsRow` | maia/__old/transform/remove_ghost_info.cpp:99-100 | an entry of a face list becomes the number of the row of its element, or -1 exactly for a ghost |
| `GhostRemoval.CellsAreVolumes` | maia/__old/transform/remove_ghost_info.cpp:79-91 | the number of cells is the number of kept elements of dimension 3 |
| `GhostRemoval.SectionsKeepType` | maia/__old/transform/remove_ghost_info.cpp:107-128 | sections have no ghosts left, keep their element type, and hold the rows of their owned elements |
| `GhostRemoval.DropInvalid` | maia/__old/transform/renumber_point_lists.cpp:96-102 | invalid numbers are dropped, order kept |
| `GhostRemoval.DropInvalidPairs` | maia/__old/transform/renumber_point_lists.cpp:108-132 | list and donor list are filtered in lockstep |
| `GhostRemoval.JoinKeepsUsedPairs` | maia/__old/transform/renumber_point_lists.cpp:33-131 | after both zones renumber and invalid pairs are dropped, exactly the pairs of nodes used on both sides remain, in order |
| `StdElements.FirstAsBase` | maia/__old/transform/convert_to_std_elements.cpp:249-298 | whatever face of a hexahedron comes first, in whatever rotation, it can serve as base |
| `StdElements.TriangleAsBase` | maia/__old/transform/convert_to_std_elements.cpp:196-220 | either triangle of a prism can serve as base |
| `StdElements.Intersection` | maia/__old/transform/convert_to_std_elements.cpp:166-167 | the common elements of two sorted lists |
| `StdElements.SortDistinct` | maia/__old/transform/convert_to_std_elements.cpp:160-165 | the same vertices in increasing order |
| `StdElements.OtherCommon` | maia/__old/transform/convert_to_std_elements.cpp:158-170 | the common vertex of two quads other than the given one |
| `StdElements.AboveIsCommon` | maia/__old/transform/convert_to_std_elements.cpp:172-180 | two sides around a base corner share exactly the vertical edge |
| `StdElements.NodeAbove` | maia/__old/transform/convert_to_std_elements.cpp:172-180 | the vertical-edge partner of a base corner |
| `StdElements.NodesAbove` | maia/__old/transform/convert_to_std_elements.cpp:222-225 | the corners above all base corners, in order |
| `StdElements.FirstTriangle` | maia/__old/transform/convert_to_std_elements.cpp:201-208 | the first triangle among the faces |
| `StdElements.ConvertPrism` | maia/__old/transform/convert_to_std_elements.cpp:182-226 | for two triangles and three quads in any order, base seen from inside, and faces of the emitted element equal to the given ones as vertex sets |
| `StdElements.SharesWithBase` | maia/__old/transform/convert_to_std_elements.cpp:238-247 | sides share vertices with the base, the top does not |
| `StdElements.ConvertHexahedron` | maia/__old/transform/convert_to_std_elements.cpp:249-298 | for six quads in any order, base seen from inside, and faces of the emitted element equal to the given ones as vertex sets |
| `StdElements.EmittedDistinct` | maia/__old/transform/convert_to_std_elements.cpp:214-297 | emitted vertices are all different |
| `StdElements.HexahedronFaces` | maia/__old/transform/convert_to_std_elements.cpp:285-298 | the faces attributed to an emitted hexahedron are those of HEXA_8 |
| `StdElements.PrismFaces` | maia/__old/transform/convert_to_std_elements.cpp:214-225 | the faces attributed to an emitted prism are those of PENTA_6 |
| `ElementSlices.UniformIsDistribution` | maia/utils/py_utils.py:102-115 | the bounds computed by the ranks form a distribution whose parts differ by at most one |
| `ElementSlices.DistributeSection` | maia/factory/full_to_dist.py:59-88 | a rank keeps the elements within its uniform bounds, their nodes, their offsets and their parents |
| `ElementSlices.SliceKeepsElements` | maia/factory/full_to_dist.py:71-86 | local offsets bound the local connectivity and every element keeps its nodes and parents |
| `ElementSlices.RangesFollow` | maia/factory/full_to_dist.py:68-82 | the element and connectivity ranges of the ranks follow each other up to the totals, which every rank knows, and are as long as the local arrays |
| `ElementSlices.SlicesConcatenate` | maia/factory/full_to_dist.py:71-78 | the concatenated local connectivities are the connectivity of the section |
| `ElementSlices.FixedWidthConcatenate` | maia/factory/full_to_dist.py:79-82 | the same for elements of fixed width |
| `ElementSlices.WriteCoversOnce` | maia/io/hdf/cgns_elements.py:51-65 | every entry of the offset array is written exactly once, empty ranks allowed, if and only if the section has an element |
| `ElementSlices.NothingWritten` | maia/io/hdf/cgns_elements.py:57-58 | the single entry of an empty section is never written |
| `ElementSlices.WriteThenRead` | maia/io/hdf/cgns_elements.py:51-65 | what ranks write is the offset array, and reading gives every rank its own offsets back |
| `ElementSlices.ConnectivitySlabsFollow` | maia/io/hdf/cgns_elements.py:15-33 | the parts of the connectivity follow each other and fit the local arrays |
| `NodeWalk.LevelIsIdle` | maia/pytree/walk/_node_parsers.py:136-255 | searches without levels are the searches with levels and no window |
| `NodeWalk.Turn` | maia/pytree/walk/_node_parsers.py:206-218 | one turn of the queue loop: what the first entry yields and what it adds to the queue |
| `NodeWalk.SearchBfs` | maia/pytree/walk/_node_parsers.py:206-246 | the queue loop yields the breadth first sequence, deep or shallow, with or without window |
| `NodeWalk.BfsFindsPending` | maia/pytree/walk/_node_parsers.py:206-255 | breadth first search yields what depth first search finds from its queue, in another order |
| `NodeWalk.DeepOrdersAgree` | maia/pytree/walk/_node_parsers.py:189-226 | deep dfs and bfs find the same nodes if and only if the first level is not negative or the root does not match |
| `NodeWalk.NegativeLevelSplitsOrders` | maia/pytree/walk/_node_parsers.py:189-226 | one input: a root that bfs finds and dfs does not |
| `NodeWalk.NothingBelowRoot` | maia/pytree/walk/_node_parsers.py:189-255 | the depth first search finds nothing below the root exactly when no node of the window below it matches |
| `NodeWalk.SelectedRootSplitsOrders` | maia/pytree/walk/_node_parsers.py:228-255 | one input: a matching child that shallow dfs finds and shallow bfs does not |
| `NodeWalk.ShallowOrdersAgree` | maia/pytree/walk/_node_parsers.py:189-255 | shallow dfs and bfs find the same nodes if and only if the root does not match, or is before the window, or is its first level and no node of the window below it matches |
| `NodeWalk.ParseIsHead` | maia/pytree/walk/_node_parsers.py:65-104 | the single-node dfs returns the head of the dfs iteration, deep or shallow |
| `NodeWalk.ParseBfs` | maia/pytree/walk/_node_parsers.py:78-92 | the single-node bfs returns the head of the bfs iteration, deep or shallow |
| `NodeWalk.NodesWalker.constructor` | maia/pytree/walk/nodes_walker.py:19-48 | a new walker has an empty cache |
| `NodeWalk.NodesWalker.SetRoot` | maia/pytree/walk/nodes_walker.py:54-57 | the cache is dropped, so it never outlives the root |
| `NodeWalk.NodesWalker.SetPredicate` | maia/pytree/walk/nodes_walker.py:63-69 | the cache is dropped with the predicate |
| `NodeWalk.NodesWalker.SetSearch` | maia/pytree/walk/nodes_walker.py:75-81 | only dfs and bfs are accepted; the cache is dropped |
| `NodeWalk.NodesWalker.SetExplore` | maia/pytree/walk/nodes_walker.py:87-93 | only deep and shallow are accepted; the cache is dropped |
| `NodeWalk.NodesWalker.SetDepth` | maia/pytree/walk/nodes_walker.py:99-115 | exactly which depths are accepted, lists of any length included, and what window they give; the cache is dropped |
| `NodeWalk.NodesWalker.SetSort` | maia/pytree/walk/nodes_walker.py:121-127 | the cache is dropped with the order of children |
| `NodeWalk.NodesWalker.SetCaching` | maia/pytree/walk/nodes_walker.py:133-138 | switching the cache keeps its contents valid |
| `NodeWalk.NodesWalker.Clean` | maia/pytree/walk/nodes_walker.py:177-179 | the cache is emptied |
| `WalkListing.PreorderIsComplete` | maia/pytree/walk/_node_parsers.py:136-255 | the preorder listing has exactly the paths of the tree |
| `WalkListing.LevelOrderIsComplete` | maia/pytree/walk/_node_parsers.py:136-255 | so has the listing level by level |
| `WalkListing.DfsIsListing` | maia/pytree/walk/_node_parsers.py:189-255 | the depth first search yields the preorder listing of the tree, children in the given order, filtered by predicate, window and, when shallow, by matches above |
| `WalkListing.BfsIsListing` | maia/pytree/walk/_node_parsers.py:206-246 | the breadth first search yields the listing level by level, filtered alike |
| `WalkListing.DeepDfsFindsAll` | maia/pytree/walk/_node_parsers.py:189-226 | a deep depth first search finds exactly the matches of the window below the root, and the root if it matches and levels start at 0 |
| `WalkListing.DeepBfsFindsAll` | maia/pytree/walk/_node_parsers.py:206-218 | a deep breadth first search finds exactly the matches of the window |
| `WalkListing.WalkIsListing` | maia/pytree/walk/nodes_walker.py:147-171 | what a walker returns, in either order, is the filtered listing |
| `NodeWalk.DepthRules` | maia/pytree/walk/nodes_walker.py:108-112 | two levels are always accepted; longer lists that begin with a proper window are refused, and so are lists without a first level |
| `NodeWalk.NodesWalker.Call` | maia/pytree/walk/nodes_walker.py:161-171 | after any sequence of setter calls, a cached walker on an unchanged tree returns what an uncached one would: the filtered listing of WalkListing.WalkIsListing |

## Left out

- TreeCompare.DiffTree: does not model the texts of the difference report, only the verdict and whether building the report raises; the value comparison is the default one, on one rank.
- TreeCompare.IsSameTree: character arrays of two or three dimensions, NaN, and the imaginary part of complex numbers are not modelled.
- StdElements.ConvertPrism: models one cell; the loop that appends the vertices of all cells and the new element node is not modelled.
- NodeWalk.NodesWalker.SetDepth: the levels of a list are integers or None; other elements are not modelled.
- NodeWalk.NodesWalker.Call: the returned list and the list given as depth are values, so changes made to them by the caller are not modelled.
- GhostRemoval.Zone.RemoveGhostInfo: models one zone; removal of empty lists and of whole connectivities from the tree is not modelled.
- ConnectedZones.FindConnectedZones: takes the paths of opposite zones as already completed with the base name.
- JoinProtocol.RunProtocol: follows the joins of the initial tree; joins between partitions of one zone only take part in the naming (`DonorNames.UpdateDonorNames`).
- JoinRecovery.GetPointListDonors: the transfer through ParaDiGM is not modelled.
- WallDistance.DecodeFace: the closest-element search and the coordinates are not modelled.
- Calls into ParaDiGM (partitioning, isosurfaces, closest points, global numbering): foreign code.
- HDF5 and Cassiopee input and output, file names, logging, start-up of MPI: plumbing.
- Floating-point geometry: affine transforms, weights, comparison of fields with a tolerance.
- `ForwardBackwardTree`, tree printing, YAML parsing, CGNS keyword tables and node presets: would only add easy members.
- Conversion between old and new polyhedral sections and load balancing: their content is in files that are not part of this model.
