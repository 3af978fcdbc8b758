/**
  Scoring a bifurcating reference tree. Either every pair of inner nodes is
  processed with its metaquartet, or the quartets are processed one at a
  time: each one is placed into the metaquartet of its node pair, its LQ-IC
  score is folded onto its path, and its counts are added to the pair's entry
  of the count buffer. The QP-IC and EQP-IC scores are then finalised from
  the buffer.
*/
module Bifurcating {
  import opened Wrappers
  import opened QuartetCodec
  import opened InformationContent
  import opened CountBuffer
  import opened EdgeScores
  import opened EulerTour
  import opened Topology
  import opened MetaQuartet

  /**
    What the tree tells about its nodes: how many there are, which are inner,
    the primary link of each, and the Euler-tour ranges of the four subtrees
    of each node pair.
  */
  datatype NodeInfo = NodeInfo(
    nodeCount: nat,
    isInner: nat -> bool,
    link: nat -> PrimaryLink,
    subtrees: (nat, nat) -> Subtrees)

  /** Every primary link lies on an edge of the tree. */
  ghost predicate LinksValid(ctx: Context, info: NodeInfo) {
    forall u :: info.link(u).edge < ctx.tree.edgeCount
  }

  ghost predicate NodeInfoValid(ctx: Context, tour: seq<nat>, info: NodeInfo) {
    && LinksValid(ctx, info)
    && (forall u, v :: SubtreesInTour(tour, info.subtrees(u, v)))
  }

  // ----- Iterating over node pairs

  /** The pairs (i, j) with i < j < end and both i and j inner, by ascending j. */
  function Partners(info: NodeInfo, i: nat, end: nat): seq<NodePair>
    decreases end
  {
    if end <= i + 1 then
      []
    else
      Partners(info, i, end - 1) + if info.isInner(end - 1) then [NodePair(i, end - 1)] else []
  }

  /** The pairs of inner nodes (i, j) with i < j and i < end, in the order of the two loops. */
  function InnerPairs(info: NodeInfo, end: nat): seq<NodePair>
    decreases end
  {
    if end == 0 then
      []
    else
      InnerPairs(info, end - 1) + if info.isInner(end - 1) then Partners(info, end - 1, info.nodeCount) else []
  }

  lemma {:induction false} PartnersMembers(info: NodeInfo, i: nat, end: nat)
    ensures forall p :: p in Partners(info, i, end) <==> p.first == i && i < p.second < end && info.isInner(p.second)
    decreases end
  {
    if end > i + 1 {
      PartnersMembers(info, i, end - 1);
    }
  }

  /** Every pair of distinct inner nodes is visited, with the smaller node first, and nothing else is. */
  lemma {:induction false} InnerPairsMembers(info: NodeInfo, end: nat)
    ensures forall p :: p in InnerPairs(info, end) <==>
              p.first < end && p.first < p.second < info.nodeCount && info.isInner(p.first) && info.isInner(p.second)
    decreases end
  {
    if end > 0 {
      InnerPairsMembers(info, end - 1);
      PartnersMembers(info, end - 1, info.nodeCount);
    }
  }

  /** Processing one node pair; the pair's nodes differ, so the inner links exist. */
  function PairUpdate(ctx: Context, tour: seq<nat>, info: NodeInfo, tables: ScoreTables, p: NodePair): (r: ScoreTables)
    requires ctx.Valid() && NodeInfoValid(ctx, tour, info) && TablesFit(ctx, tables)
    ensures TablesFit(ctx, r)
  {
    NodePairUpdate(ctx, tour, info.subtrees(p.first, p.second), p.first, p.second,
                   info.link(p.first), info.link(p.second), tables)
  }

  /** Folds a step over a sequence, first element first. */
  function FoldSteps<S, X>(step: (S, X) -> S, s: S, xs: seq<X>): S
    decreases |xs|
  {
    if |xs| == 0 then s else step(FoldSteps(step, s, xs[..|xs| - 1]), xs[|xs| - 1])
  }

  lemma {:induction false} FoldStepsAppend<S, X>(step: (S, X) -> S, s: S, xs: seq<X>, ys: seq<X>)
    ensures FoldSteps(step, s, xs + ys) == FoldSteps(step, FoldSteps(step, s, xs), ys)
    decreases |ys|
  {
    if |ys| == 0 {
      assert xs + ys == xs;
    } else {
      var zs := xs + ys;
      assert zs[..|zs| - 1] == xs + ys[..|ys| - 1];
      assert zs[|zs| - 1] == ys[|ys| - 1];
      FoldStepsAppend(step, s, xs, ys[..|ys| - 1]);
    }
  }

  /** Processing one node pair as a total step: tables of the wrong size are left alone. */
  function PairStep(ctx: Context, tour: seq<nat>, info: NodeInfo): (ScoreTables, NodePair) -> ScoreTables
    requires ctx.Valid() && NodeInfoValid(ctx, tour, info)
  {
    (t: ScoreTables, p: NodePair) => if TablesFit(ctx, t) then PairUpdate(ctx, tour, info, t, p) else t
  }

  /** The tables after the node pairs ps, in order. */
  function FoldPairs(ctx: Context, tour: seq<nat>, info: NodeInfo, tables: ScoreTables, ps: seq<NodePair>): ScoreTables
    requires ctx.Valid() && NodeInfoValid(ctx, tour, info)
  {
    FoldSteps(PairStep(ctx, tour, info), tables, ps)
  }

  lemma {:induction false} FoldPairsFit(ctx: Context, tour: seq<nat>, info: NodeInfo, tables: ScoreTables, ps: seq<NodePair>)
    requires ctx.Valid() && NodeInfoValid(ctx, tour, info) && TablesFit(ctx, tables)
    ensures TablesFit(ctx, FoldPairs(ctx, tour, info, tables, ps))
    decreases |ps|
  {
    if |ps| > 0 {
      FoldPairsFit(ctx, tour, info, tables, ps[..|ps| - 1]);
    }
  }

  /** The fold over ps followed by one more pair. */
  lemma FoldPairsSnoc(ctx: Context, tour: seq<nat>, info: NodeInfo, tables: ScoreTables, ps: seq<NodePair>, p: NodePair)
    requires ctx.Valid() && NodeInfoValid(ctx, tour, info) && TablesFit(ctx, tables)
    ensures TablesFit(ctx, FoldPairs(ctx, tour, info, tables, ps))
    ensures FoldPairs(ctx, tour, info, tables, ps + [p])
            == PairUpdate(ctx, tour, info, FoldPairs(ctx, tour, info, tables, ps), p)
  {
    FoldPairsFit(ctx, tour, info, tables, ps);
    assert (ps + [p])[..|ps|] == ps;
  }

  /** One step of the inner loop. */
  lemma PartnersStep(ctx: Context, tour: seq<nat>, info: NodeInfo, tables: ScoreTables, i: nat, j: nat)
    requires ctx.Valid() && NodeInfoValid(ctx, tour, info) && TablesFit(ctx, tables)
    requires i < j
    ensures TablesFit(ctx, FoldPairs(ctx, tour, info, tables, Partners(info, i, j)))
    ensures var before := FoldPairs(ctx, tour, info, tables, Partners(info, i, j));
            FoldPairs(ctx, tour, info, tables, Partners(info, i, j + 1))
            == if info.isInner(j) then PairUpdate(ctx, tour, info, before, NodePair(i, j)) else before
  {
    FoldPairsFit(ctx, tour, info, tables, Partners(info, i, j));
    if info.isInner(j) {
      FoldPairsSnoc(ctx, tour, info, tables, Partners(info, i, j), NodePair(i, j));
    } else {
      assert Partners(info, i, j + 1) == Partners(info, i, j);
    }
  }

  /** One step of the outer loop. */
  lemma InnerPairsStep(ctx: Context, tour: seq<nat>, info: NodeInfo, tables: ScoreTables, i: nat)
    requires ctx.Valid() && NodeInfoValid(ctx, tour, info) && TablesFit(ctx, tables)
    ensures var before := FoldPairs(ctx, tour, info, tables, InnerPairs(info, i));
            FoldPairs(ctx, tour, info, tables, InnerPairs(info, i + 1))
            == if info.isInner(i) then FoldPairs(ctx, tour, info, before, Partners(info, i, info.nodeCount)) else before
  {
    if info.isInner(i) {
      FoldStepsAppend(PairStep(ctx, tour, info), tables, InnerPairs(info, i), Partners(info, i, info.nodeCount));
    } else {
      assert InnerPairs(info, i + 1) == InnerPairs(info, i);
    }
  }

  /** All tables in range after all pairs; LQ-IC and EQP-IC never rise. */
  lemma {:induction false} FoldPairsEffect(ctx: Context, tour: seq<nat>, info: NodeInfo, tables: ScoreTables, ps: seq<NodePair>)
    requires ctx.Valid() && NodeInfoValid(ctx, tour, info) && TablesFit(ctx, tables)
    ensures var r := FoldPairs(ctx, tour, info, tables, ps);
            NoneIncreased(r.lqic, tables.lqic) && NoneIncreased(r.eqpic, tables.eqpic)
    ensures var r := FoldPairs(ctx, tour, info, tables, ps);
            IsXLogX(ctx.xlogx) && InRange(tables.lqic) && InRange(tables.qpic) && InRange(tables.eqpic) ==>
              InRange(r.lqic) && InRange(r.qpic) && InRange(r.eqpic)
    decreases |ps|
  {
    if |ps| > 0 {
      var prev := FoldPairs(ctx, tour, info, tables, ps[..|ps| - 1]);
      var p := ps[|ps| - 1];
      var r := FoldPairs(ctx, tour, info, tables, ps);
      FoldPairsEffect(ctx, tour, info, tables, ps[..|ps| - 1]);
      assert ps[..|ps| - 1] + [p] == ps;
      FoldPairsSnoc(ctx, tour, info, tables, ps[..|ps| - 1], p);
      NodePairUpdateEffect(ctx, tour, info.subtrees(p.first, p.second), p.first, p.second,
                           info.link(p.first), info.link(p.second), prev);
      NoneIncreasedTransitive(r.lqic, prev.lqic, tables.lqic);
      NoneIncreasedTransitive(r.eqpic, prev.eqpic, tables.eqpic);
    }
  }

  /** The LQ-IC contributions of the node pair p: one per quartet of its metaquartet. */
  function MetaquartetContributions(ctx: Context, tour: seq<nat>, info: NodeInfo, p: NodePair): (cs: seq<Contribution>)
    requires ctx.Valid() && NodeInfoValid(ctx, tour, info)
    ensures AllWithin(cs, ctx.tree.edgeCount)
  {
    Contributions(ctx, Quartets(tour, info.subtrees(p.first, p.second)))
  }

  /** The LQ-IC contributions of the node pairs ps, pair after pair. */
  function LqicContributions(ctx: Context, tour: seq<nat>, info: NodeInfo, ps: seq<NodePair>): (cs: seq<Contribution>)
    requires ctx.Valid() && NodeInfoValid(ctx, tour, info)
    ensures AllWithin(cs, ctx.tree.edgeCount)
    decreases |ps|
  {
    if |ps| == 0 then
      []
    else
      var front := LqicContributions(ctx, tour, info, ps[..|ps| - 1]);
      var last := MetaquartetContributions(ctx, tour, info, ps[|ps| - 1]);
      FoldAllAppend(Unreached(ctx.tree.edgeCount), front, last);
      front + last
  }

  /** The EQP-IC contribution of the node pair p: the score of its counts along the path between its nodes. */
  function PairContribution(ctx: Context, tour: seq<nat>, info: NodeInfo, p: NodePair): Contribution
    requires ctx.Valid() && NodeInfoValid(ctx, tour, info)
  {
    Contribution(ctx.tree.PathBetween(p.first, p.second),
                 LogScore(PairCounts(ctx, tour, info.subtrees(p.first, p.second)), ctx.xlogx))
  }

  /** The EQP-IC contributions of the node pairs ps, one per pair. */
  function EqpicContributions(ctx: Context, tour: seq<nat>, info: NodeInfo, ps: seq<NodePair>): (cs: seq<Contribution>)
    requires ctx.Valid() && NodeInfoValid(ctx, tour, info)
    ensures |cs| == |ps| && AllWithin(cs, ctx.tree.edgeCount)
    ensures forall i :: 0 <= i < |ps| ==> cs[i] == PairContribution(ctx, tour, info, ps[i])
  {
    seq(|ps|, i requires 0 <= i < |ps| => PairContribution(ctx, tour, info, ps[i]))
  }

  /** One node pair folds its metaquartet's quartets into LQ-IC. */
  lemma PairUpdateLqic(ctx: Context, tour: seq<nat>, info: NodeInfo, tables: ScoreTables, p: NodePair)
    requires ctx.Valid() && NodeInfoValid(ctx, tour, info) && TablesFit(ctx, tables)
    ensures PairUpdate(ctx, tour, info, tables, p).lqic == FoldAll(tables.lqic, MetaquartetContributions(ctx, tour, info, p))
  {
    FoldLqicIsFoldAll(ctx, Accumulator(Counts(0, 0, 0), tables.lqic), Quartets(tour, info.subtrees(p.first, p.second)));
  }

  /** One node pair folds its own score into EQP-IC. */
  lemma PairUpdateEqpic(ctx: Context, tour: seq<nat>, info: NodeInfo, tables: ScoreTables, p: NodePair)
    requires ctx.Valid() && NodeInfoValid(ctx, tour, info) && TablesFit(ctx, tables)
    ensures var c := PairContribution(ctx, tour, info, p);
            PairUpdate(ctx, tour, info, tables, p).eqpic == FoldPath(tables.eqpic, c.path, c.score)
  {
    NodePairUpdateEffect(ctx, tour, info.subtrees(p.first, p.second), p.first, p.second,
                         info.link(p.first), info.link(p.second), tables);
  }

  lemma EqpicContributionsSnoc(ctx: Context, tour: seq<nat>, info: NodeInfo, ps: seq<NodePair>, p: NodePair)
    requires ctx.Valid() && NodeInfoValid(ctx, tour, info)
    ensures EqpicContributions(ctx, tour, info, ps + [p])
            == EqpicContributions(ctx, tour, info, ps) + [PairContribution(ctx, tour, info, p)]
  {
  }

  /** After the node pairs ps, LQ-IC is the fold of every quartet of every pair's metaquartet. */
  lemma {:induction false} FoldPairsLqic(ctx: Context, tour: seq<nat>, info: NodeInfo, tables: ScoreTables, ps: seq<NodePair>)
    requires ctx.Valid() && NodeInfoValid(ctx, tour, info) && TablesFit(ctx, tables)
    ensures FoldPairs(ctx, tour, info, tables, ps).lqic == FoldAll(tables.lqic, LqicContributions(ctx, tour, info, ps))
    decreases |ps|
  {
    if |ps| > 0 {
      var front, p := ps[..|ps| - 1], ps[|ps| - 1];
      var prev := FoldPairs(ctx, tour, info, tables, front);
      FoldPairsLqic(ctx, tour, info, tables, front);
      assert front + [p] == ps;
      FoldPairsSnoc(ctx, tour, info, tables, front, p);
      PairUpdateLqic(ctx, tour, info, prev, p);
      FoldAllAppend(tables.lqic, LqicContributions(ctx, tour, info, front), MetaquartetContributions(ctx, tour, info, p));
    }
  }

  /** After the node pairs ps, EQP-IC is the fold of every pair's score along the path between its nodes. */
  lemma {:induction false} FoldPairsEqpic(ctx: Context, tour: seq<nat>, info: NodeInfo, tables: ScoreTables, ps: seq<NodePair>)
    requires ctx.Valid() && NodeInfoValid(ctx, tour, info) && TablesFit(ctx, tables)
    ensures FoldPairs(ctx, tour, info, tables, ps).eqpic == FoldAll(tables.eqpic, EqpicContributions(ctx, tour, info, ps))
    decreases |ps|
  {
    if |ps| > 0 {
      var front, p := ps[..|ps| - 1], ps[|ps| - 1];
      var prev := FoldPairs(ctx, tour, info, tables, front);
      var es, c := EqpicContributions(ctx, tour, info, front), PairContribution(ctx, tour, info, p);
      FoldPairsEqpic(ctx, tour, info, tables, front);
      assert front + [p] == ps;
      FoldPairsSnoc(ctx, tour, info, tables, front, p);
      PairUpdateEqpic(ctx, tour, info, prev, p);
      EqpicContributionsSnoc(ctx, tour, info, front, p);
      FoldAllSnoc(tables.eqpic, es, c);
    }
  }

  /** A contribution reaches LQ-IC exactly when it belongs to the metaquartet of one of the pairs. */
  lemma {:induction false} LqicContributionsMembers(ctx: Context, tour: seq<nat>, info: NodeInfo, ps: seq<NodePair>)
    requires ctx.Valid() && NodeInfoValid(ctx, tour, info)
    ensures forall c :: c in LqicContributions(ctx, tour, info, ps) <==>
              exists p :: p in ps && c in MetaquartetContributions(ctx, tour, info, p)
    decreases |ps|
  {
    if |ps| > 0 {
      var front, last := ps[..|ps| - 1], ps[|ps| - 1];
      LqicContributionsMembers(ctx, tour, info, front);
      assert ps == front + [last];
      forall c ensures c in LqicContributions(ctx, tour, info, ps) <==>
                       exists p :: p in ps && c in MetaquartetContributions(ctx, tour, info, p)
      {
        if exists p :: p in ps && c in MetaquartetContributions(ctx, tour, info, p) {
          var p :| p in ps && c in MetaquartetContributions(ctx, tour, info, p);
          if p != last {
            assert p in front;
          }
        }
      }
    }
  }

  /**
    The order of the node pairs does not matter for LQ-IC: any two schedules
    visiting the same pairs (the parallel loop of the source may take them in
    any order) leave the same table.
  */
  lemma FoldPairsLqicOrderIndependent(ctx: Context, tour: seq<nat>, info: NodeInfo, tables: ScoreTables,
                                      ps: seq<NodePair>, qs: seq<NodePair>)
    requires ctx.Valid() && NodeInfoValid(ctx, tour, info) && TablesFit(ctx, tables)
    requires forall p :: p in ps <==> p in qs
    ensures FoldPairs(ctx, tour, info, tables, ps).lqic == FoldPairs(ctx, tour, info, tables, qs).lqic
  {
    FoldPairsLqic(ctx, tour, info, tables, ps);
    FoldPairsLqic(ctx, tour, info, tables, qs);
    LqicContributionsMembers(ctx, tour, info, ps);
    LqicContributionsMembers(ctx, tour, info, qs);
    FoldAllSameContributions(tables.lqic, LqicContributions(ctx, tour, info, ps), LqicContributions(ctx, tour, info, qs));
  }

  /** Nor does it matter for EQP-IC. */
  lemma FoldPairsEqpicOrderIndependent(ctx: Context, tour: seq<nat>, info: NodeInfo, tables: ScoreTables,
                                       ps: seq<NodePair>, qs: seq<NodePair>)
    requires ctx.Valid() && NodeInfoValid(ctx, tour, info) && TablesFit(ctx, tables)
    requires forall p :: p in ps <==> p in qs
    ensures FoldPairs(ctx, tour, info, tables, ps).eqpic == FoldPairs(ctx, tour, info, tables, qs).eqpic
  {
    FoldPairsEqpic(ctx, tour, info, tables, ps);
    FoldPairsEqpic(ctx, tour, info, tables, qs);
    var xs, ys := EqpicContributions(ctx, tour, info, ps), EqpicContributions(ctx, tour, info, qs);
    forall c ensures c in xs <==> c in ys {
      if c in xs {
        SameEqpicContribution(ctx, tour, info, ps, qs, c);
      }
      if c in ys {
        SameEqpicContribution(ctx, tour, info, qs, ps, c);
      }
    }
    FoldAllSameContributions(tables.eqpic, xs, ys);
  }

  /** One direction of the comparison in FoldPairsEqpicOrderIndependent. */
  lemma SameEqpicContribution(ctx: Context, tour: seq<nat>, info: NodeInfo, ps: seq<NodePair>, qs: seq<NodePair>,
                              c: Contribution)
    requires ctx.Valid() && NodeInfoValid(ctx, tour, info)
    requires forall p :: p in ps ==> p in qs
    requires c in EqpicContributions(ctx, tour, info, ps)
    ensures c in EqpicContributions(ctx, tour, info, qs)
  {
    var xs, ys := EqpicContributions(ctx, tour, info, ps), EqpicContributions(ctx, tour, info, qs);
    var i :| 0 <= i < |xs| && xs[i] == c;
    assert ps[i] in qs;
    var j :| 0 <= j < |qs| && qs[j] == ps[i];
    assert ys[j] == c;
  }

  /** The inner loop: node i with every inner node j > i. */
  method ScanPartners(ctx: Context, tour: seq<nat>, info: NodeInfo, i: nat, tables: ScoreTables) returns (r: ScoreTables)
    requires ctx.Valid() && NodeInfoValid(ctx, tour, info) && TablesFit(ctx, tables)
    requires i < info.nodeCount
    ensures TablesFit(ctx, r)
    ensures r == FoldPairs(ctx, tour, info, tables, Partners(info, i, info.nodeCount))
  {
    r := tables;
    for j := i + 1 to info.nodeCount
      invariant TablesFit(ctx, r)
      invariant r == FoldPairs(ctx, tour, info, tables, Partners(info, i, j))
    {
      PartnersStep(ctx, tour, info, tables, i, j);
      if info.isInner(j) {
        var res := ProcessNodePair(ctx, tour, info.subtrees(i, j), i, j, info.link(i), info.link(j), r);
        r := res.value;
      }
    }
  }

  /** Processes every pair of inner nodes, as the two nested loops of the source do. */
  method ComputeBifurcating(ctx: Context, tour: seq<nat>, info: NodeInfo, tables: ScoreTables) returns (r: ScoreTables)
    requires ctx.Valid() && NodeInfoValid(ctx, tour, info) && TablesFit(ctx, tables)
    ensures TablesFit(ctx, r)
    ensures r == FoldPairs(ctx, tour, info, tables, InnerPairs(info, info.nodeCount))
  {
    r := tables;
    for i := 0 to info.nodeCount
      invariant TablesFit(ctx, r)
      invariant r == FoldPairs(ctx, tour, info, tables, InnerPairs(info, i))
    {
      InnerPairsStep(ctx, tour, info, tables, i);
      if info.isInner(i) {
        r := ScanPartners(ctx, tour, info, i, r);
      }
    }
  }

  // ----- Iterating over quartets

  /** The count of the topology whose key carries the given pairing tag. */
  function TagCount(occ: Counts, tag: nat): nat {
    if tag == 0 then occ.q1 else if tag == 1 then occ.q2 else occ.q3
  }

  /** The counts of ab|cd, ac|bd and ad|bc, looked up by the pairing tags of their keys. */
  function ReferenceCounts(occ: Counts, t: Quartet): Counts {
    Counts(TagCount(occ, TupleIndex(t.a, t.b, t.c, t.d)),
           TagCount(occ, TupleIndex(t.a, t.c, t.b, t.d)),
           TagCount(occ, TupleIndex(t.a, t.d, t.b, t.c)))
  }

  lemma SwapFirst(a: nat, b: nat, c: nat)
    ensures multiset{b, a, c} == multiset{a, b, c}
  {
  }

  lemma SwapLast(a: nat, b: nat, c: nat)
    ensures multiset{a, c, b} == multiset{a, b, c}
  {
  }

  lemma TagCountsPermute(occ: Counts, x: nat, y: nat, z: nat)
    requires x < 3 && y < 3 && z < 3 && x != y && x != z && y != z
    ensures multiset{TagCount(occ, x), TagCount(occ, y), TagCount(occ, z)} == multiset{occ.q1, occ.q2, occ.q3}
  {
    var a, b, c := occ.q1, occ.q2, occ.q3;
    if x == 0 && y == 1 {
    } else if x == 0 {
      SwapLast(a, b, c);
    } else if x == 1 && y == 0 {
      SwapFirst(a, b, c);
    } else if x == 1 {
      SwapFirst(a, b, c);
      SwapLast(b, a, c);
    } else if y == 0 {
      SwapLast(a, b, c);
      SwapFirst(a, c, b);
    } else {
      SwapFirst(a, b, c);
      SwapLast(b, a, c);
      SwapFirst(b, c, a);
    }
  }

  /**
    For four distinct taxa the three pairings carry the tags 0, 1 and 2 in
    some order, so the counts looked up are the given ones, rearranged: none
    is lost and none is counted twice.
  */
  lemma ReferenceCountsRearrange(occ: Counts, t: Quartet)
    requires Distinct(t.a, t.b, t.c, t.d)
    ensures var r := ReferenceCounts(occ, t);
            multiset{r.q1, r.q2, r.q3} == multiset{occ.q1, occ.q2, occ.q3}
  {
    PairingTagsArePermutation(t.a, t.b, t.c, t.d);
    TagCountsPermute(occ, TupleIndex(t.a, t.b, t.c, t.d), TupleIndex(t.a, t.c, t.b, t.d), TupleIndex(t.a, t.d, t.b, t.c));
  }

  /** For four distinct taxa no count is lost or counted twice. */
  lemma ReferenceCountsTotal(occ: Counts, t: Quartet)
    requires Distinct(t.a, t.b, t.c, t.d)
    ensures ReferenceCounts(occ, t).Total() == occ.Total()
  {
    PairingTagsArePermutation(t.a, t.b, t.c, t.d);
  }

  /**
    The taxa of a quartet in the order of the four subtrees of the node pair
    {u, v}: from each subtree range, the first leaf that is one of the taxa.
  */
  function ReferenceOrder(tour: seq<nat>, m: Subtrees, u: nat, v: nat, q: Quartet): (r: Result<Quartet>)
    requires SubtreesInTour(tour, m)
    ensures r.Failure? <==> u == v || FirstOneOf(Leaves(tour, m.s1), q.a, q.b, q.c, q.d).None? ||
                            FirstOneOf(Leaves(tour, m.s2), q.a, q.b, q.c, q.d).None? ||
                            FirstOneOf(Leaves(tour, m.s3), q.a, q.b, q.c, q.d).None? ||
                            FirstOneOf(Leaves(tour, m.s4), q.a, q.b, q.c, q.d).None?
    ensures r.Failure? ==> (r.error == NoInnerLinks <==> u == v)
    ensures r.Success? ==> IsOneOf(r.value.a, q.a, q.b, q.c, q.d) && IsOneOf(r.value.b, q.a, q.b, q.c, q.d) &&
                           IsOneOf(r.value.c, q.a, q.b, q.c, q.d) && IsOneOf(r.value.d, q.a, q.b, q.c, q.d)
  {
    if u == v then
      Failure(NoInnerLinks)
    else
      var a := FirstOneOf(Leaves(tour, m.s1), q.a, q.b, q.c, q.d);
      var b := FirstOneOf(Leaves(tour, m.s2), q.a, q.b, q.c, q.d);
      var c := FirstOneOf(Leaves(tour, m.s3), q.a, q.b, q.c, q.d);
      var d := FirstOneOf(Leaves(tour, m.s4), q.a, q.b, q.c, q.d);
      if a.None? || b.None? || c.None? || d.None? then
        Failure(LeafNotFound)
      else
        Success(Quartet(a.value, b.value, c.value, d.value))
  }

  /** What scoring a quartet by itself changes: the LQ-IC table and the count buffer. */
  datatype QuartetState = QuartetState(lqic: seq<Score>, buffer: Buffer)

  /**
    Scoring a quartet once its node pair and its taxa in subtree order t are
    known: its counts are rearranged to the order of t, its score is folded
    onto the path between the pair's nodes, and the counts are added to the
    pair's entry of the buffer.
  */
  function ScoreOrdered(ctx: Context, pair: PathEnds, t: Quartet, occ: Counts, state: QuartetState): (r: QuartetState)
    requires ctx.Valid() && |state.lqic| == ctx.tree.edgeCount
    ensures |r.lqic| == |state.lqic|
    ensures r.buffer.Keys == state.buffer.Keys + {SortedPair(pair.from, pair.to)}
    ensures Recorded(r.buffer, pair.from, pair.to) == Plus(Recorded(state.buffer, pair.from, pair.to), ReferenceCounts(occ, t))
  {
    var counts := ReferenceCounts(occ, t);
    var qic := LogScore(counts, ctx.xlogx);
    QuartetState(FoldPath(state.lqic, ctx.tree.PathBetween(pair.to, pair.from), qic),
                 AddCounts(state.buffer, pair.from, pair.to, counts))
  }

  /** LQ-IC scores only fall, and stay in [-1, 1]. */
  lemma ScoreOrderedLqic(ctx: Context, pair: PathEnds, t: Quartet, occ: Counts, state: QuartetState)
    requires ctx.Valid() && |state.lqic| == ctx.tree.edgeCount
    ensures var r := ScoreOrdered(ctx, pair, t, occ, state);
            NoneIncreased(r.lqic, state.lqic) && (IsXLogX(ctx.xlogx) && InRange(state.lqic) ==> InRange(r.lqic))
  {
    var counts := ReferenceCounts(occ, t);
    var qic := LogScore(counts, ctx.xlogx);
    FoldPathLowersWithinRange(state.lqic, ctx.tree.PathBetween(pair.to, pair.from), qic);
    if IsXLogX(ctx.xlogx) {
      LogScoreBounds(counts, ctx.xlogx);
    }
  }

  /**
    One quartet {u, v, w, z} whose topology the reference tree resolves: it is
    put into the metaquartet of its node pair and scored there, or the error
    of finding its taxa in that metaquartet's subtrees is returned.
  */
  function QuadrupleUpdate(ctx: Context, tour: seq<nat>, info: NodeInfo, u: nat, v: nat, w: nat, z: nat,
                           occ: Counts, state: QuartetState): (r: Result<QuartetState>)
    requires ctx.Valid() && NodeInfoValid(ctx, tour, info) && |state.lqic| == ctx.tree.edgeCount
    requires ResolveQuadruple(ctx.tree, u, v, w, z).Some?
    ensures r.Success? ==> |r.value.lqic| == |state.lqic|
    ensures r.Failure? ==> r.error == NoInnerLinks || r.error == LeafNotFound
  {
    var q := ResolveQuadruple(ctx.tree, u, v, w, z).value;
    var pair := NodePairForQuartet(ctx.tree, q);
    var key := SortedPair(pair.from, pair.to);
    match ReferenceOrder(tour, info.subtrees(key.first, key.second), key.first, key.second, q)
    case Failure(e) => Failure(e)
    case Success(t) => Success(ScoreOrdered(ctx, pair, t, occ, state))
  }

  /**
    Scores one resolved quartet as the source does, with the four subtree
    scans. Unresolved quartets are not handled here (see the README).
  */
  method ScoreQuadruple(ctx: Context, tour: seq<nat>, info: NodeInfo, u: nat, v: nat, w: nat, z: nat,
                        occ: Counts, state: QuartetState) returns (r: Result<QuartetState>)
    requires ctx.Valid() && NodeInfoValid(ctx, tour, info) && |state.lqic| == ctx.tree.edgeCount
    requires ResolveQuadruple(ctx.tree, u, v, w, z).Some?
    ensures r == QuadrupleUpdate(ctx, tour, info, u, v, w, z, occ, state)
  {
    var q := ResolveQuadruple(ctx.tree, u, v, w, z).value;
    var pair := NodePairForQuartet(ctx.tree, q);
    var key := SortedPair(pair.from, pair.to);
    var m := info.subtrees(key.first, key.second);
    if key.first == key.second {
      return Failure(NoInnerLinks);
    }
    var a := CheckExistenceInSubtree(tour, m.s1.start, m.s1.end, q.a, q.b, q.c, q.d);
    var b := CheckExistenceInSubtree(tour, m.s2.start, m.s2.end, q.a, q.b, q.c, q.d);
    var c := CheckExistenceInSubtree(tour, m.s3.start, m.s3.end, q.a, q.b, q.c, q.d);
    var d := CheckExistenceInSubtree(tour, m.s4.start, m.s4.end, q.a, q.b, q.c, q.d);
    if a.Failure? || b.Failure? || c.Failure? || d.Failure? {
      return Failure(LeafNotFound);
    }
    var t := Quartet(a.value, b.value, c.value, d.value);
    var counts := ReferenceCounts(occ, t);
    var qic := LogScore(counts, ctx.xlogx);
    var lqic := FoldPath(state.lqic, ctx.tree.PathBetween(pair.to, pair.from), qic);
    return Success(QuartetState(lqic, AddCounts(state.buffer, pair.from, pair.to, counts)));
  }

  /**
    A scored quartet changes exactly one entry of the buffer, that of its
    node pair, adding its whole count there when the four taxa found in the
    subtrees are distinct. Its score, computed from the counts in subtree
    order, is folded by minimum onto the path between the pair's nodes, so
    LQ-IC scores only fall and stay in [-1, 1].
  */
  lemma QuadrupleUpdateEffect(ctx: Context, tour: seq<nat>, info: NodeInfo, u: nat, v: nat, w: nat, z: nat,
                              occ: Counts, state: QuartetState)
    requires ctx.Valid() && NodeInfoValid(ctx, tour, info) && |state.lqic| == ctx.tree.edgeCount
    requires ResolveQuadruple(ctx.tree, u, v, w, z).Some?
    ensures var r := QuadrupleUpdate(ctx, tour, info, u, v, w, z, occ, state);
            var q := ResolveQuadruple(ctx.tree, u, v, w, z).value;
            var pair := NodePairForQuartet(ctx.tree, q);
            var key := SortedPair(pair.from, pair.to);
            var order := ReferenceOrder(tour, info.subtrees(key.first, key.second), key.first, key.second, q);
            && (r.Success? <==> order.Success?)
            && (r.Success? ==> r.value.buffer.Keys == state.buffer.Keys + {key})
            && (r.Success? ==> forall k :: k in state.buffer && k != key ==> r.value.buffer[k] == state.buffer[k])
            && (r.Success? ==> Recorded(r.value.buffer, pair.from, pair.to)
                               == Plus(Recorded(state.buffer, pair.from, pair.to), ReferenceCounts(occ, order.value)))
    ensures var r := QuadrupleUpdate(ctx, tour, info, u, v, w, z, occ, state);
            var q := ResolveQuadruple(ctx.tree, u, v, w, z).value;
            var pair := NodePairForQuartet(ctx.tree, q);
            var key := SortedPair(pair.from, pair.to);
            var order := ReferenceOrder(tour, info.subtrees(key.first, key.second), key.first, key.second, q);
            r.Success? ==> r.value.lqic == FoldPath(state.lqic, ctx.tree.PathBetween(pair.to, pair.from),
                                                    LogScore(ReferenceCounts(occ, order.value), ctx.xlogx))
    ensures var r := QuadrupleUpdate(ctx, tour, info, u, v, w, z, occ, state);
            r.Success? ==> NoneIncreased(r.value.lqic, state.lqic) &&
                           (IsXLogX(ctx.xlogx) && InRange(state.lqic) ==> InRange(r.value.lqic))
  {
    var q := ResolveQuadruple(ctx.tree, u, v, w, z).value;
    var pair := NodePairForQuartet(ctx.tree, q);
    var key := SortedPair(pair.from, pair.to);
    var order := ReferenceOrder(tour, info.subtrees(key.first, key.second), key.first, key.second, q);
    if order.Success? {
      assert QuadrupleUpdate(ctx, tour, info, u, v, w, z, occ, state) == Success(ScoreOrdered(ctx, pair, order.value, occ, state));
      ScoreOrderedLqic(ctx, pair, order.value, occ, state);
    }
  }

  // ----- Finalising QP-IC and EQP-IC from the count buffer

  /**
    One entry of the buffer: the score of the pair's counts is written onto
    the edge joining the pair, if there is one, and folded as EQP-IC onto the
    path between the pair's nodes. LQ-IC is left alone.
  */
  function FinalizeEntry(ctx: Context, info: NodeInfo, tables: ScoreTables, key: NodePair, counts: Counts): (r: ScoreTables)
    requires ctx.Valid() && LinksValid(ctx, info) && TablesFit(ctx, tables)
    ensures TablesFit(ctx, r)
  {
    var qpic := LogScore(counts, ctx.xlogx);
    tables.(qpic := SetAdjacentScore(tables.qpic, key.first, key.second, info.link(key.first), info.link(key.second), qpic),
            eqpic := FoldPath(tables.eqpic, ctx.tree.PathBetween(key.first, key.second), qpic))
  }

  /** The buffer's keys, each exactly once: an iteration order of the map. */
  ghost predicate Enumerates(keys: seq<NodePair>, buffer: Buffer) {
    && (forall k :: k in buffer <==> k in keys)
    && (forall i, j :: 0 <= i < j < |keys| ==> keys[i] != keys[j])
  }

  /** The entries keys of the buffer processed in order. */
  function Finalize(ctx: Context, info: NodeInfo, tables: ScoreTables, buffer: Buffer, keys: seq<NodePair>): (r: ScoreTables)
    requires ctx.Valid() && LinksValid(ctx, info) && TablesFit(ctx, tables)
    requires forall i :: 0 <= i < |keys| ==> keys[i] in buffer
    ensures TablesFit(ctx, r)
    decreases |keys|
  {
    if |keys| == 0 then
      tables
    else
      var k := keys[|keys| - 1];
      FinalizeEntry(ctx, info, Finalize(ctx, info, tables, buffer, keys[..|keys| - 1]), k, buffer[k])
  }

  /**
    Computes QP-IC and EQP-IC from every entry of the count buffer, visiting
    the entries in the map's iteration order `keys`.
  */
  method CalculateQpicScores(ctx: Context, info: NodeInfo, tables: ScoreTables, buffer: Buffer, keys: seq<NodePair>)
    returns (r: ScoreTables)
    requires ctx.Valid() && LinksValid(ctx, info) && TablesFit(ctx, tables)
    requires Enumerates(keys, buffer)
    ensures r == Finalize(ctx, info, tables, buffer, keys)
  {
    r := tables;
    for i := 0 to |keys|
      invariant r == Finalize(ctx, info, tables, buffer, keys[..i])
    {
      assert keys[..i + 1][..i] == keys[..i];
      r := FinalizeEntry(ctx, info, r, keys[i], buffer[keys[i]]);
    }
    assert keys[..|keys|] == keys;
  }

  /** The EQP-IC contribution of each entry: its QP-IC score along the path between its nodes. */
  function EntryContributions(ctx: Context, buffer: Buffer, keys: seq<NodePair>): (cs: seq<Contribution>)
    requires ctx.Valid()
    requires forall i :: 0 <= i < |keys| ==> keys[i] in buffer
    ensures |cs| == |keys| && AllWithin(cs, ctx.tree.edgeCount)
    ensures forall i :: 0 <= i < |keys| ==>
              cs[i] == Contribution(ctx.tree.PathBetween(keys[i].first, keys[i].second), LogScore(buffer[keys[i]], ctx.xlogx))
  {
    seq(|keys|, i requires 0 <= i < |keys| =>
      Contribution(ctx.tree.PathBetween(keys[i].first, keys[i].second), LogScore(buffer[keys[i]], ctx.xlogx)))
  }

  lemma EntryContributionsSnoc(ctx: Context, buffer: Buffer, keys: seq<NodePair>)
    requires ctx.Valid() && |keys| > 0
    requires forall i :: 0 <= i < |keys| ==> keys[i] in buffer
    ensures var cs := EntryContributions(ctx, buffer, keys);
            cs == EntryContributions(ctx, buffer, keys[..|keys| - 1]) + [cs[|keys| - 1]]
  {
  }

  /** Finalising leaves LQ-IC as it is and folds the entries' scores into EQP-IC, in order. */
  lemma {:induction false} FinalizeFoldsEntries(ctx: Context, info: NodeInfo, tables: ScoreTables, buffer: Buffer,
                                                keys: seq<NodePair>)
    requires ctx.Valid() && LinksValid(ctx, info) && TablesFit(ctx, tables)
    requires forall i :: 0 <= i < |keys| ==> keys[i] in buffer
    ensures var r := Finalize(ctx, info, tables, buffer, keys);
            && r.lqic == tables.lqic
            && r.eqpic == FoldAll(tables.eqpic, EntryContributions(ctx, buffer, keys))
    decreases |keys|
  {
    if |keys| > 0 {
      var front := keys[..|keys| - 1];
      FinalizeFoldsEntries(ctx, info, tables, buffer, front);
      EntryContributionsSnoc(ctx, buffer, keys);
      var csFront, c := EntryContributions(ctx, buffer, front), EntryContributions(ctx, buffer, keys)[|keys| - 1];
      FoldAllSnoc(tables.eqpic, csFront, c);
    }
  }

  /** A QP-IC score changes only to the score of an entry whose pair the edge joins. */
  lemma {:induction false} FinalizeQpicFromEntries(ctx: Context, info: NodeInfo, tables: ScoreTables, buffer: Buffer,
                                                   keys: seq<NodePair>)
    requires ctx.Valid() && LinksValid(ctx, info) && TablesFit(ctx, tables)
    requires forall i :: 0 <= i < |keys| ==> keys[i] in buffer
    ensures var r := Finalize(ctx, info, tables, buffer, keys);
            forall e :: 0 <= e < |r.qpic| && r.qpic[e] != tables.qpic[e] ==>
              exists i :: 0 <= i < |keys| && r.qpic[e] == Finite(LogScore(buffer[keys[i]], ctx.xlogx)) &&
                          (e == info.link(keys[i].first).edge || e == info.link(keys[i].second).edge)
    decreases |keys|
  {
    if |keys| > 0 {
      var front, k := keys[..|keys| - 1], keys[|keys| - 1];
      var prev, r := Finalize(ctx, info, tables, buffer, front), Finalize(ctx, info, tables, buffer, keys);
      FinalizeQpicFromEntries(ctx, info, tables, buffer, front);
      forall e | 0 <= e < |r.qpic| && r.qpic[e] != tables.qpic[e]
        ensures exists i :: 0 <= i < |keys| && r.qpic[e] == Finite(LogScore(buffer[keys[i]], ctx.xlogx)) &&
                            (e == info.link(keys[i].first).edge || e == info.link(keys[i].second).edge)
      {
        if r.qpic[e] == prev.qpic[e] {
          var i :| 0 <= i < |front| && prev.qpic[e] == Finite(LogScore(buffer[front[i]], ctx.xlogx)) &&
                   (e == info.link(front[i].first).edge || e == info.link(front[i].second).edge);
          assert keys[i] == front[i];
        } else {
          assert keys[|keys| - 1] == k;
        }
      }
    }
  }

  /**
    EQP-IC after finalising is, on every edge, the minimum of its score before
    and the scores of the entries whose path holds it; in particular it does
    not depend on the order the map hands out its entries.
  */
  lemma FinalizeEqpicIsPathMinimum(ctx: Context, info: NodeInfo, tables: ScoreTables, buffer: Buffer, keys: seq<NodePair>)
    requires ctx.Valid() && LinksValid(ctx, info) && TablesFit(ctx, tables)
    requires Enumerates(keys, buffer)
    ensures var r := Finalize(ctx, info, tables, buffer, keys);
            forall k, e :: k in buffer && e in ctx.tree.PathBetween(k.first, k.second) ==>
              AtMost(r.eqpic[e], Finite(LogScore(buffer[k], ctx.xlogx)))
    ensures var r := Finalize(ctx, info, tables, buffer, keys);
            forall e :: 0 <= e < |r.eqpic| ==>
              r.eqpic[e] == tables.eqpic[e] ||
              exists k :: k in buffer && e in ctx.tree.PathBetween(k.first, k.second) &&
                          r.eqpic[e] == Finite(LogScore(buffer[k], ctx.xlogx))
  {
    var r := Finalize(ctx, info, tables, buffer, keys);
    var cs := EntryContributions(ctx, buffer, keys);
    FinalizeFoldsEntries(ctx, info, tables, buffer, keys);
    FoldAllIsPathMinimum(tables.eqpic, cs);
    forall k, e | k in buffer && e in ctx.tree.PathBetween(k.first, k.second)
      ensures AtMost(r.eqpic[e], Finite(LogScore(buffer[k], ctx.xlogx)))
    {
      var i :| 0 <= i < |keys| && keys[i] == k;
      assert e in cs[i].path;
    }
    forall e | 0 <= e < |r.eqpic| && r.eqpic[e] != tables.eqpic[e]
      ensures exists k :: k in buffer && e in ctx.tree.PathBetween(k.first, k.second) &&
                          r.eqpic[e] == Finite(LogScore(buffer[k], ctx.xlogx))
    {
      var i :| 0 <= i < |cs| && e in cs[i].path && r.eqpic[e] == Finite(cs[i].score);
      assert keys[i] in buffer;
    }
  }

  /** Two iteration orders of the buffer give the same contributions. */
  lemma SameEntryContributions(ctx: Context, buffer: Buffer, keys1: seq<NodePair>, keys2: seq<NodePair>)
    requires ctx.Valid()
    requires Enumerates(keys1, buffer) && Enumerates(keys2, buffer)
    ensures var cs1, cs2 := EntryContributions(ctx, buffer, keys1), EntryContributions(ctx, buffer, keys2);
            forall c :: c in cs1 <==> c in cs2
  {
    var cs1, cs2 := EntryContributions(ctx, buffer, keys1), EntryContributions(ctx, buffer, keys2);
    forall c | c in cs1 ensures c in cs2 {
      var i :| 0 <= i < |cs1| && cs1[i] == c;
      var j :| 0 <= j < |keys2| && keys2[j] == keys1[i];
      assert cs2[j] == c;
    }
    forall c | c in cs2 ensures c in cs1 {
      var j :| 0 <= j < |cs2| && cs2[j] == c;
      var i :| 0 <= i < |keys1| && keys1[i] == keys2[j];
      assert cs1[i] == c;
    }
  }

  /** Any two iteration orders of the buffer give the same EQP-IC table. */
  lemma FinalizeEqpicOrderIndependent(ctx: Context, info: NodeInfo, tables: ScoreTables, buffer: Buffer,
                                      keys1: seq<NodePair>, keys2: seq<NodePair>)
    requires ctx.Valid() && LinksValid(ctx, info) && TablesFit(ctx, tables)
    requires Enumerates(keys1, buffer) && Enumerates(keys2, buffer)
    ensures Finalize(ctx, info, tables, buffer, keys1).eqpic == Finalize(ctx, info, tables, buffer, keys2).eqpic
  {
    FinalizeFoldsEntries(ctx, info, tables, buffer, keys1);
    FinalizeFoldsEntries(ctx, info, tables, buffer, keys2);
    SameEntryContributions(ctx, buffer, keys1, keys2);
    FoldAllSameContributions(tables.eqpic, EntryContributions(ctx, buffer, keys1), EntryContributions(ctx, buffer, keys2));
  }
}
