# QuartetScores scoring core in Dafny

This project models the scoring core of QuartetScores, `QuartetScoreComputer`.
The core computes three support scores for every edge (internode) of a
reference tree from how often each quartet topology occurs in a set of
evaluation trees:

- **LQ-IC**: the lowest quartet information content over the quartets whose
  path holds the edge.
- **QP-IC**: the score of the metaquartet of the edge's two end nodes.
- **EQP-IC**: the lowest metaquartet score over the node pairs whose path holds
  the edge.

The model covers these parts of the core:

- **The quartet index codec** (`QuartetCodec`, `quartet_codec.dfy`). Four taxa
  and a topology tag are packed into one 64-bit key, and a key is unpacked
  again. This covers the tag of a presentation order, the descending canonical
  order of the four taxa, the shifts, and the four 15-bit masks.
- **The log score** (`InformationContent`, `log_score.dfy`). It is
  `1 + Σ p·log3 p` over the non-zero probabilities. It is negated when the
  reference count is below one of the others, and it is 0 when nothing was
  counted.
- **Edge-score tables** (`EdgeScores`, `edge_scores.dfy`). This covers the
  +∞ initialisation, the minimum folding of a score onto every edge of a path,
  and the QP-IC assignment to the edge joining two neighbouring nodes. It also
  holds the generic theory of folding many contributions: path minimum and
  order independence.
- **The count buffer** (`CountBuffer`, `count_buffer.dfy`). This is the map
  from a sorted node pair to its summed topology counts, with its
  find-or-insert-then-add update.
- **Euler-tour leaf ranges** (`EulerTour`, `euler_tour.dfy`). This covers the
  circular walk over a subtree's leaf range and `checkExistenceInSubtree`.
- **Topology resolution** (`Topology`, `topology.dfy`). It covers the three
  LCA-to-LCA distances of a quadruple, the strict-maximum rule that picks ab|cd
  or leaves the quadruple unresolved, the path ends of a quartet, and
  `nodePairForQuartet`.
- **One node pair** (`MetaQuartet`, `node_pair.dfy`). The four nested walks
  over the metaquartet's subtrees are modelled. Each quartet's counts are
  accumulated into 32-bit `unsigned` p1..p3, and its LQ-IC score is folded onto
  its path. Afterwards the node pair's QP-IC and EQP-IC are set.
- **The bifurcating drivers** (`Bifurcating`, `bifurcating.dfy`):
  - the loop over pairs of inner nodes;
  - the per-quadruple variant, which resolves a quadruple, finds its node pair
    and reference order, scores it, and adds its counts to the buffer;
  - the finalisation of QP-IC and EQP-IC from the buffer
    (`calculateQPICScores`).
- **The multifurcating driver** (`Multifurcating`, `multifurcating.dfy`). Four
  nested loops run over increasing Euler-tour positions, and unresolved
  quadruples are skipped. Only LQ-IC is sized and scored; nothing sizes or
  writes QP-IC and EQP-IC, so they stay as they were constructed: empty.
- **The memory check** (`MemoryBudget`, `memory_budget.dfy`). It makes the two
  table-size estimates in 64-bit `size_t` arithmetic and fails when the compact
  table does not fit.

The reference tree is given as oracles, which are the function-valued fields
of `Topology.RefTree`:

- the LCA under a given root;
- the distance in edges;
- the edges of the path between two nodes through their LCA.

The occurrence counts of the evaluation trees are the oracle
`MetaQuartet.Context.occurrences`. The real function `x ↦ x·log3 x` is the
parameter `xlogx`. Only the facts the scores rely on are assumed of it
(`InformationContent.IsXLogX`): it lies in [-1/2, 0] on (0, 1] and is 0 at 1.

The per-node data of the reference tree is the `Bifurcating.NodeInfo`
datatype. It holds which nodes are inner, each node's primary link, and the
Euler-tour ranges of the four subtrees a node pair separates.

### Where the specification and the code differ (the model follows the code)

- **Key invariance.** The key is the same for every presentation of a quartet
  that keeps its pairing: {a,b} and {c,d} may be swapped within and between.
  Presentations with a different pairing get a different tag, so they get a
  different key (`QuartetCodec.GetIndexSeparatesPairings`). Only the four slots
  are the same for every permutation.
- **Sign of the log score.** The score is negated only when q1 is below q2 or
  below q3. When q1 ties for the maximum, the score stays positive.
- **Counter width.** The metaquartet counters p1, p2 and p3 are 32-bit
  `unsigned`, so they wrap modulo 2^32. The buffer counters are `size_t`.

## Model

| member | source | states |
|---|---|---|
| QuartetCodec.TupleIndex | src/QuartetScoreComputer.hpp:154-178 | the tag is below 3; it is 0 exactly in the separated case and 2 exactly in the nested case, so exactly one of the three cases holds |
| QuartetCodec.TupleIndexByRanges | src/QuartetScoreComputer.hpp:154-178 | for distinct taxa the tag says how the pair {a,b} sits relative to {c,d}: disjoint value ranges (0), one range inside the other (2), or interleaved (1) |
| QuartetCodec.TupleIndexPairingInvariant | src/QuartetScoreComputer.hpp:154-178 | the tag does not change when a and b, c and d, or the two pairs are swapped |
| QuartetCodec.PairingTagsArePermutation | src/QuartetScoreComputer.hpp:154-178 | the three pairings ab, ac, ad of distinct taxa get three different tags, which together are exactly {0,1,2} |
| QuartetCodec.CanonicalOrder | src/QuartetScoreComputer.hpp:181-220 | the merge of the two ordered pairs yields the four taxa in descending order, as the same multiset |
| QuartetCodec.CanonicalOrderPermutationInvariant | src/QuartetScoreComputer.hpp:181-220 | any two presentations of the same taxon multiset get the same canonical order |
| QuartetCodec.BitShiftingIndexExact | src/QuartetScoreComputer.hpp:139-151 | for 15-bit taxa and a tag below 16, the 64-bit shifts and sums lose nothing: the key is the exact positional sum |
| QuartetCodec.TagChangesKey | src/QuartetScoreComputer.hpp:139-151 | two different tags give two different keys for the same four slots |
| QuartetCodec.SlotsOfPackedKey | src/QuartetScoreComputer.hpp:119-130 | masking and shifting a packed key recovers the four slot values, and the low four bits are the tag |
| QuartetCodec.GetLeavesOfGetIndex | src/QuartetScoreComputer.hpp:119-136 | round trip: unpacking the key of four 15-bit taxa gives them in descending order, and its low bits are their tag |
| QuartetCodec.GetIndexInjective | src/QuartetScoreComputer.hpp:133-136 | equal keys of 15-bit taxa mean the same taxon multiset and the same tag |
| QuartetCodec.GetIndexPairingInvariant | src/QuartetScoreComputer.hpp:133-136 | presentations that keep the pairing of distinct taxa get the same key |
| QuartetCodec.GetIndexSeparatesPairings | src/QuartetScoreComputer.hpp:133-136 | the three pairings of distinct taxa get three different keys |
| InformationContent.LogScore | src/QuartetScoreComputer.hpp:279-302 | zero counts score 0; otherwise the score is the information content, negated exactly when q1 is below q2 or q3 |
| InformationContent.LogScoreBounds | src/QuartetScoreComputer.hpp:279-302 | every score lies in [-1, 1] |
| InformationContent.FullAgreementScoresOne | src/QuartetScoreComputer.hpp:280-301 | when all evaluation trees show the reference topology the score is 1 |
| InformationContent.UniformSplitScoresZero | src/QuartetScoreComputer.hpp:283-301 | an even three-way split scores 0 |
| InformationContent.LogScoreAlternativesSymmetric | src/QuartetScoreComputer.hpp:289-301 | exchanging the two alternative counts leaves the score unchanged |
| InformationContent.LogScoreMagnitudeSymmetric | src/QuartetScoreComputer.hpp:289-301 | exchanging the reference count with an alternative changes at most the sign |
| CountBuffer.SortedPair | src/QuartetScoreComputer.hpp:469-470 | the key holds the two nodes, smaller first |
| CountBuffer.AddCounts | src/QuartetScoreComputer.hpp:523-529 | the entry of {u,v} exists afterwards and has grown by the added counts; no other entry changes and no other key appears |
| CountBuffer.AddCountsTotal | src/QuartetScoreComputer.hpp:523-529 | the total recorded for {u,v} grows by exactly the total added |
| CountBuffer.AddCountsSymmetric | src/QuartetScoreComputer.hpp:469-470 | adding for (u,v) and for (v,u) is the same update |
| CountBuffer.AddCountsCommute | src/QuartetScoreComputer.hpp:521-531 | two additions give the same buffer in either order, so the parallel loop's schedule cannot change the buffer |
| EdgeScores.MinWith | src/QuartetScoreComputer.hpp:518 | the result is finite, at most the folded score and at most the old score, and it is one of the two |
| EdgeScores.FoldPath | src/QuartetScoreComputer.hpp:511-519 | every edge on the path ends at the minimum of its old score and the score; every other edge is unchanged |
| EdgeScores.FoldPathIdempotent | src/QuartetScoreComputer.hpp:610-616 | folding the same score onto the same path twice changes nothing more |
| EdgeScores.FoldPathCommutes | src/QuartetScoreComputer.hpp:614-615 | two folds give the same table in either order |
| EdgeScores.FoldPathLowersWithinRange | src/QuartetScoreComputer.hpp:610-616 | a fold never raises a score, and it keeps a table within [-1,1] when the score is within it |
| EdgeScores.InitScores | src/QuartetScoreComputer.hpp:94-111 | LQ-IC always becomes +∞ on every edge; QP-IC and EQP-IC become +∞ on every edge only for a bifurcating tree and are untouched otherwise |
| EdgeScores.SetAdjacentScore | src/QuartetScoreComputer.hpp:636-643 | the score is written onto u's edge when u's primary link leads to v, else onto v's edge when v's leads to u; nothing else changes |
| EdgeScores.FoldAllIsPathMinimum | src/QuartetScoreComputer.hpp:610-616 | after folding many contributions each edge is at most every score whose path holds it, and it is its old score or one of those scores |
| EdgeScores.FoldAllLowersWithinRange | src/QuartetScoreComputer.hpp:610-616 | folding many contributions never raises a score and keeps the table within [-1,1] |
| EdgeScores.FoldAllSameContributions | src/QuartetScoreComputer.hpp:363-369 | two sequences of the same contributions fold to the same table, whatever their order and repetitions |
| EdgeScores.FoldCollectedIsPathMinimum | src/QuartetScoreComputer.hpp:744-750 | after visiting items, each edge is at most the score of every contribution given for an item whose path holds it, and it is its old score or one of those |
| EdgeScores.FoldCollectedOrderIndependent | src/QuartetScoreComputer.hpp:678-682 | visiting the same items in any order gives the same table |
| EulerTour.CircularRange | src/QuartetScoreComputer.hpp:376-380 | the walk from start to end visits start, start+1, … wrapping past the last index, and takes exactly the circular distance many steps |
| EulerTour.FirstOneOf | src/QuartetScoreComputer.hpp:377-378 | None exactly when no leaf is one of a, b, c, d; otherwise it is the first leaf that is |
| EulerTour.CheckExistenceInSubtree | src/QuartetScoreComputer.hpp:375-382 | returns the first leaf of the circular range that is one of the four taxa, and fails with LeafNotFound exactly when there is none |
| Topology.ResolveSplit | src/QuartetScoreComputer.hpp:438-465 | a pairing is chosen exactly when its LCA distance strictly exceeds both others; none is chosen exactly when the largest distance is tied |
| Topology.Arrange | src/QuartetScoreComputer.hpp:442-461 | the arranged quartet keeps u first, pairs it with the chosen partner, and holds the same four taxa |
| Topology.ResolveQuadruple | src/QuartetScoreComputer.hpp:697-724 | a resolved quadruple is u paired with the partner whose split is strictly furthest apart; the quadruple is unresolved exactly when the distances tie |
| Topology.AtMostOneStrictMaximum | src/QuartetScoreComputer.hpp:697-720 | at most one of the three branches can apply |
| Topology.QuartetPathEnds | src/QuartetScoreComputer.hpp:598-607 | each end is its pair's LCA under the root or under the other end |
| Topology.NodePairForQuartet | src/QuartetScoreComputer.hpp:233-244 | each node of the pair is its taxon pair's LCA under the root or under the other node |
| Topology.EndsIgnoreOrderWithinPairs | src/QuartetScoreComputer.hpp:233-244 | when the LCA is symmetric, neither the path ends nor the node pair change when a and b, c and d, or both are swapped |
| MetaQuartet.QuartetPath | src/QuartetScoreComputer.hpp:598-611 | the path of a quartet lies within the tree's edges |
| MetaQuartet.WrapPlus | src/QuartetScoreComputer.hpp:591-593 | adding to a 32-bit counter and wrapping equals wrapping the exact sum |
| MetaQuartet.FoldCountsAreWrappedTotals | src/QuartetScoreComputer.hpp:544-593 | p1, p2, p3 end as the exact totals of the quartets' counts modulo 2^32, and as the exact totals when those fit |
| MetaQuartet.FoldLowersWithinRange | src/QuartetScoreComputer.hpp:594-616 | processing quartets never raises an LQ-IC score and keeps the table within [-1,1] |
| MetaQuartet.FoldLqicIsFoldAll | src/QuartetScoreComputer.hpp:579-631 | the LQ-IC table after the quartets equals folding each quartet's score onto its path |
| MetaQuartet.FoldIsPathMinimum | src/QuartetScoreComputer.hpp:608-616 | after the quartets each edge is at most every quartet score whose path holds it, and it is its old score or one of those |
| MetaQuartet.CrossMembers | src/QuartetScoreComputer.hpp:579-631 | the four nested walks visit exactly the product of the four leaf ranges, one quartet per combination |
| MetaQuartet.ScanRow | src/QuartetScoreComputer.hpp:582-619 | the innermost walk processes the quartets (a,b,c,d) for every d of its range, in tour order |
| MetaQuartet.ScanPlane | src/QuartetScoreComputer.hpp:581-622 | the third walk processes the rows for every c of its range, in tour order |
| MetaQuartet.ScanCube | src/QuartetScoreComputer.hpp:580-626 | the second walk processes the planes for every b of its range, in tour order |
| MetaQuartet.ScanMetaquartet | src/QuartetScoreComputer.hpp:574-631 | the four walks process every quartet of the metaquartet, in the source's order |
| MetaQuartet.NodePairUpdate | src/QuartetScoreComputer.hpp:579-651 | the node-pair step on all three tables keeps each of them sized to the edges of the tree; its effect is stated by the two lemmas below |
| MetaQuartet.NodePairUpdateEffect | src/QuartetScoreComputer.hpp:633-651 | LQ-IC and EQP-IC only fall; EQP-IC is the old table with the score of the wrapped pair counts min-folded onto the path u..v; the joining edge (if any) gets that score as QP-IC; all tables stay within [-1,1] |
| MetaQuartet.NodePairLqicIsPathMinimum | src/QuartetScoreComputer.hpp:579-631 | after a node pair each edge's LQ-IC is at most every quartet score of the metaquartet whose path holds it, and it is its old score or one of those |
| MetaQuartet.ProcessNodePair | src/QuartetScoreComputer.hpp:542-652 | fails with NoInnerLinks exactly when u and v are the same node; otherwise it performs the node-pair update |
| MemoryBudget.MulWord | src/QuartetScoreComputer.hpp:818-819 | every product is a 64-bit value |
| MemoryBudget.Estimate | src/QuartetScoreComputer.hpp:818-819 | both estimates are 64-bit values |
| MemoryBudget.CheckMemory | src/QuartetScoreComputer.hpp:817-829 | fails with InsufficientMemory exactly when the compact estimate exceeds the available memory, and otherwise returns both estimates |
| MemoryBudget.ChooseFour | src/QuartetScoreComputer.hpp:819 | n(n-1)(n-2)(n-3)/24 is the number of four-taxon sets |
| MemoryBudget.CompactBelowFourTaxa | src/QuartetScoreComputer.hpp:819 | with fewer than four taxa the compact table is its header alone |
| MemoryBudget.CompactCountsFourTaxonSets | src/QuartetScoreComputer.hpp:819 | without overflow the compact estimate is three counters per four-taxon set plus the header |
| MemoryBudget.CheckMemoryMonotone | src/QuartetScoreComputer.hpp:827-829 | a check that passes passes with the same result on any machine with more memory |
| Bifurcating.PartnersMembers | src/QuartetScoreComputer.hpp:664-668 | the inner loop visits exactly the inner nodes j with i < j |
| Bifurcating.InnerPairsMembers | src/QuartetScoreComputer.hpp:658-670 | the two loops visit exactly the pairs i < j of inner nodes |
| Bifurcating.PartnersStep | src/QuartetScoreComputer.hpp:664-668 | one more j processes the pair (i,j) when j is inner and skips it otherwise |
| Bifurcating.InnerPairsStep | src/QuartetScoreComputer.hpp:661-669 | one more i runs the inner loop when i is inner and skips it otherwise |
| Bifurcating.FoldPairsEffect | src/QuartetScoreComputer.hpp:658-670 | processing node pairs never raises LQ-IC or EQP-IC and keeps all tables within [-1,1] |
| Bifurcating.PairUpdateLqic | src/QuartetScoreComputer.hpp:574-631 | one node pair changes LQ-IC as the plain fold of its metaquartet's quartet contributions would |
| Bifurcating.PairUpdateEqpic | src/QuartetScoreComputer.hpp:645-650 | one node pair changes EQP-IC by min-folding its pair score onto the path between its two nodes |
| Bifurcating.FoldPairsLqic | src/QuartetScoreComputer.hpp:658-670 | after any sequence of node pairs, LQ-IC is the fold of every quartet of every pair's metaquartet, pair after pair |
| Bifurcating.FoldPairsEqpic | src/QuartetScoreComputer.hpp:658-670 | after any sequence of node pairs, EQP-IC is the fold of one contribution per pair: its score along the path between its nodes |
| Bifurcating.LqicContributionsMembers | src/QuartetScoreComputer.hpp:658-670 | a quartet contribution reaches LQ-IC exactly when it belongs to the metaquartet of one of the visited pairs |
| Bifurcating.FoldPairsLqicOrderIndependent | src/QuartetScoreComputer.hpp:656-670 | any two schedules of the same node pairs, as the parallel loop may produce, give the same LQ-IC table |
| Bifurcating.FoldPairsEqpicOrderIndependent | src/QuartetScoreComputer.hpp:656-670 | any two schedules of the same node pairs give the same EQP-IC table |
| Bifurcating.ScanPartners | src/QuartetScoreComputer.hpp:664-668 | the inner loop processes the pairs (i,j), for the inner nodes j above i, in ascending order |
| Bifurcating.ComputeBifurcating | src/QuartetScoreComputer.hpp:658-670 | the two loops process every pair of inner nodes in ascending order |
| Bifurcating.ReferenceCountsRearrange | src/QuartetScoreComputer.hpp:482-486 | the counts looked up through the three pairing tags are a rearrangement of the oracle's three counts |
| Bifurcating.ReferenceCountsTotal | src/QuartetScoreComputer.hpp:527-529 | the buffer gains exactly as many counts as the oracle reported for the quartet |
| Bifurcating.ReferenceOrder | src/QuartetScoreComputer.hpp:385-417 | fails exactly when u equals v (NoInnerLinks) or a subtree range holds none of the four taxa (LeafNotFound); otherwise each of the four found leaves is one of the taxa |
| Bifurcating.ScoreOrderedLqic | src/QuartetScoreComputer.hpp:507-519 | scoring a quartet never raises LQ-IC and keeps it within [-1,1] |
| Bifurcating.ScoreQuadruple | src/QuartetScoreComputer.hpp:424-533 | the per-quadruple update of the source |
| Bifurcating.ScoreOrdered | src/QuartetScoreComputer.hpp:487-529 | scoring a quartet in subtree order keeps LQ-IC sized, adds the sorted node pair to the buffer, and raises that pair's entry by the counts re-tagged to that order |
| Bifurcating.QuadrupleUpdate | src/QuartetScoreComputer.hpp:467-531 | a resolved quadruple either fails with NoInnerLinks or LeafNotFound, or is scored with LQ-IC kept sized; its effect is stated by QuadrupleUpdateEffect |
| Bifurcating.QuadrupleUpdateEffect | src/QuartetScoreComputer.hpp:467-531 | succeeds exactly when the reference order is found; the buffer then gains the sorted node pair, whose entry grows by the re-tagged counts; no other entry changes; LQ-IC is the old table with the quartet's log score min-folded onto the path between the pair's nodes, so it only falls |
| Bifurcating.FinalizeEntry | src/QuartetScoreComputer.hpp:349-369 | one buffer entry keeps all three tables sized to the tree |
| Bifurcating.CalculateQpicScores | src/QuartetScoreComputer.hpp:340-372 | the loop processes the buffer's entries in the map's iteration order |
| Bifurcating.EntryContributions | src/QuartetScoreComputer.hpp:361-369 | each entry contributes its log score along the path between its two nodes |
| Bifurcating.FinalizeFoldsEntries | src/QuartetScoreComputer.hpp:361-369 | finalising leaves LQ-IC alone and folds every entry's score onto its path in EQP-IC |
| Bifurcating.FinalizeQpicFromEntries | src/QuartetScoreComputer.hpp:352-359 | a QP-IC score that changes becomes the score of an entry whose node's primary link is that edge |
| Bifurcating.FinalizeEqpicIsPathMinimum | src/QuartetScoreComputer.hpp:362-369 | EQP-IC on each edge is at most every entry score whose path holds it, and it is its old score or one of those |
| Bifurcating.SameEntryContributions | src/QuartetScoreComputer.hpp:342-346 | two iteration orders of the buffer yield the same set of contributions |
| Bifurcating.FinalizeEqpicOrderIndependent | src/QuartetScoreComputer.hpp:342-370 | EQP-IC does not depend on the order the map hands out its entries |
| Multifurcating.FirstsMembers | src/QuartetScoreComputer.hpp:679-682 | the four loops visit exactly the increasing quadruples of tour positions |
| Multifurcating.QuadContribution | src/QuartetScoreComputer.hpp:683-750 | a quadruple contributes only along a path within the tree's edges |
| Multifurcating.ScanFourths | src/QuartetScoreComputer.hpp:682-751 | the innermost loop folds the resolved quadruples for l above k, in order |
| Multifurcating.ScanThirds | src/QuartetScoreComputer.hpp:681-752 | the third loop folds the resolved quadruples for k above j, in order |
| Multifurcating.ScanSeconds | src/QuartetScoreComputer.hpp:680-753 | the second loop folds the resolved quadruples for j above i, in order |
| Multifurcating.ScanFirsts | src/QuartetScoreComputer.hpp:679-754 | the four loops fold the resolved quadruples of all increasing positions, in order |
| Multifurcating.AllQuadruples | src/QuartetScoreComputer.hpp:679-682 | exactly the increasing quadruples of tour positions |
| Multifurcating.ComputeMultifurcating | src/QuartetScoreComputer.hpp:676-755 | LQ-IC becomes the fold of every resolved quadruple; QP-IC and EQP-IC are untouched |
| Multifurcating.MultifurcatingIsPathMinimum | src/QuartetScoreComputer.hpp:742-750 | each edge ends at most every resolved quadruple score whose path holds it, and it is its old score or one of those; unresolved quadruples leave no trace |
| Multifurcating.MultifurcatingOrderIndependent | src/QuartetScoreComputer.hpp:676-679 | any schedule of the same quadruples, such as the parallel loop's, gives the same LQ-IC table |

## Left out

- The tree library's `Tree`, `path_set` and the LCA/distance structure are not part of this model. They appear as the oracles `lca`, `distance` and `pathEdges`. Their correctness is not modelled.
- `get_path_inner_links` (src/QuartetScoreComputer.hpp:312-337) is modelled only for its failure on a node paired with itself. The links it finds and the four subtree ranges derived from them are given per node pair in `NodeInfo.subtrees`.
- The Euler-tour construction in the constructor (lines 804-811) is left out: the tour and the per-link leaf positions are inputs.
- `getTotalSystemMemory` reads the machine, so the available memory is a parameter of `MemoryBudget.CheckMemory`.
- `countQuartetOccurrences` and the lookup tables behind it are the oracle `occurrences`.
- Floating point is left out. `log` is the parameter `xlogx` with the bounds stated by `InformationContent.IsXLogX`. Scores are reals.
- OpenMP scheduling and critical sections are not modelled. The loops run in source order, and the lemmas above show that the order of the folds does not change LQ-IC, EQP-IC or the buffer (`Bifurcating.FoldPairsLqicOrderIndependent`, `Bifurcating.FoldPairsEqpicOrderIndependent`, `Bifurcating.FinalizeEqpicOrderIndependent`, `Multifurcating.MultifurcatingOrderIndependent`, `CountBuffer.AddCountsCommute`).
- Console output, the `pairhash` hasher and `subtreeLeafIndices` (unused by the scoring) are left out.
- Bifurcating.QuadrupleUpdate: requires that the quadruple is resolved. When it is not, the source goes on with uninitialised indices (lines 462-465), which has no defined behaviour to model.
- CountBuffer.AddCounts: the `size_t` counters of the buffer are not wrapped modulo 2^64. The sum is exact.
- Bifurcating.CalculateQpicScores: the iteration order of `std::unordered_map` is the parameter `keys`. EQP-IC is proved independent of it. QP-IC depends on it only when two entries write the same edge, and no lemma states more than `Bifurcating.FinalizeQpicFromEntries`.
- Bifurcating.ReferenceOrder: states that each found leaf is one of the four taxa. It does not state that the four leaves are distinct, which depends on the subtree ranges being disjoint, and those come from the tree library.
- Bifurcating.ScoreQuadruple: its contract is the update function; what the update does is stated by `Bifurcating.QuadrupleUpdateEffect`.
- Bifurcating.FinalizeEntry: its contract only keeps the tables sized; what finalisation does is stated by the Finalize lemmas.
- Multifurcating.QuadContribution: its contract only bounds the path; the topology it resolves is stated by `Topology.ResolveQuadruple`.
- The specification's claim that a degree-4 node leaves at least one finite LQ-IC entry depends on the tree oracle's paths being non-empty and is not stated.
