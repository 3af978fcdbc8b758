/**
  Scoring a reference tree that may be multifurcating: only LQ-IC is
  computed. Every set of four leaves is visited once, by four nested loops
  over increasing Euler-tour positions. A quadruple whose topology the
  reference tree resolves folds its score onto its path; an unresolved
  quadruple is skipped.
*/
module Multifurcating {
  import opened Wrappers
  import opened EdgeScores
  import opened Topology
  import opened MetaQuartet

  /** Four Euler-tour positions, meant to be increasing. */
  datatype Positions = Positions(i: nat, j: nat, k: nat, l: nat)

  predicate Increasing(x: Positions, n: nat) {
    x.i < x.j < x.k < x.l < n
  }

  // The positions in the order of the four nested loops, each level built
  // by growing its own loop's bound by one.

  /** (i, j, k, l) for k < l < end. */
  function Fourths(i: nat, j: nat, k: nat, end: nat): seq<Positions>
    decreases end
  {
    if end <= k + 1 then [] else Fourths(i, j, k, end - 1) + [Positions(i, j, k, end - 1)]
  }

  /** (i, j, k, l) for j < k < end and k < l < n. */
  function Thirds(i: nat, j: nat, n: nat, end: nat): seq<Positions>
    decreases end
  {
    if end <= j + 1 then [] else Thirds(i, j, n, end - 1) + Fourths(i, j, end - 1, n)
  }

  /** (i, j, k, l) for i < j < end and j < k < l < n. */
  function Seconds(i: nat, n: nat, end: nat): seq<Positions>
    decreases end
  {
    if end <= i + 1 then [] else Seconds(i, n, end - 1) + Thirds(i, end - 1, n, n)
  }

  /** (i, j, k, l) for i < end and i < j < k < l < n. */
  function Firsts(n: nat, end: nat): seq<Positions>
    decreases end
  {
    if end == 0 then [] else Firsts(n, end - 1) + Seconds(end - 1, n, n)
  }

  lemma {:induction false} FourthsMembers(i: nat, j: nat, k: nat, end: nat)
    ensures forall x :: x in Fourths(i, j, k, end) <==> x.i == i && x.j == j && x.k == k && k < x.l < end
    decreases end
  {
    if end > k + 1 {
      FourthsMembers(i, j, k, end - 1);
    }
  }

  lemma {:induction false} ThirdsMembers(i: nat, j: nat, n: nat, end: nat)
    ensures forall x :: x in Thirds(i, j, n, end) <==> x.i == i && x.j == j && j < x.k < end && x.k < x.l < n
    decreases end
  {
    if end > j + 1 {
      ThirdsMembers(i, j, n, end - 1);
      FourthsMembers(i, j, end - 1, n);
    }
  }

  lemma {:induction false} SecondsMembers(i: nat, n: nat, end: nat)
    ensures forall x :: x in Seconds(i, n, end) <==> x.i == i && i < x.j < end && x.j < x.k < x.l < n
    decreases end
  {
    if end > i + 1 {
      SecondsMembers(i, n, end - 1);
      ThirdsMembers(i, end - 1, n, n);
    }
  }

  /** The loops visit exactly the increasing position quadruples below n. */
  lemma {:induction false} FirstsMembers(n: nat, end: nat)
    ensures forall x :: x in Firsts(n, end) <==> x.i < end && Increasing(x, n)
    decreases end
  {
    if end > 0 {
      FirstsMembers(n, end - 1);
      SecondsMembers(end - 1, n, n);
    }
  }

  /**
    What the quadruple at positions x contributes to LQ-IC: nothing when the
    reference tree leaves it unresolved (or a position lies outside the
    tour), and otherwise the score of its resolved quartet ab|cd along that
    quartet's path.
  */
  function QuadContribution(ctx: Context, tour: seq<nat>, x: Positions): (r: Option<Contribution>)
    requires ctx.Valid()
    ensures r.Some? ==> EdgesWithin(r.value.path, ctx.tree.edgeCount)
  {
    if x.i < |tour| && x.j < |tour| && x.k < |tour| && x.l < |tour| then
      match ResolveQuadruple(ctx.tree, tour[x.i], tour[x.j], tour[x.k], tour[x.l])
      case None => None
      case Some(t) => Some(Contribution(QuartetPath(ctx, t), QuartetScore(ctx, t)))
    else
      None
  }

  /** The contribution of every quadruple of the tour, as a function. */
  function Contributor(ctx: Context, tour: seq<nat>): (f: Positions -> Option<Contribution>)
    requires ctx.Valid()
    ensures forall x :: f(x) == QuadContribution(ctx, tour, x)
    ensures Bounded(f, ctx.tree.edgeCount)
  {
    x => QuadContribution(ctx, tour, x)
  }

  // ----- The four loops, over any contribution of the quadruples

  /** The innermost loop: the fourth position runs from k + 1 to n. */
  method ScanFourths(f: Positions -> Option<Contribution>, n: nat, i: nat, j: nat, k: nat, lqic: seq<Score>)
    returns (r: seq<Score>)
    requires Bounded(f, |lqic|) && k < n
    ensures r == FoldCollected(lqic, f, Fourths(i, j, k, n))
  {
    r := lqic;
    for l := k + 1 to n
      invariant r == FoldCollected(lqic, f, Fourths(i, j, k, l))
    {
      FoldCollectedSnoc(lqic, f, Fourths(i, j, k, l), Positions(i, j, k, l));
      var c := f(Positions(i, j, k, l));
      if c.Some? {
        r := FoldPath(r, c.value.path, c.value.score);
      }
    }
  }

  /** The third position runs from j + 1; each step runs the fourth loop afresh. */
  method ScanThirds(f: Positions -> Option<Contribution>, n: nat, i: nat, j: nat, lqic: seq<Score>)
    returns (r: seq<Score>)
    requires Bounded(f, |lqic|) && j < n
    ensures r == FoldCollected(lqic, f, Thirds(i, j, n, n))
  {
    r := lqic;
    for k := j + 1 to n
      invariant r == FoldCollected(lqic, f, Thirds(i, j, n, k))
    {
      assert Thirds(i, j, n, k + 1) == Thirds(i, j, n, k) + Fourths(i, j, k, n);
      FoldCollectedAppend(lqic, f, Thirds(i, j, n, k), Fourths(i, j, k, n));
      r := ScanFourths(f, n, i, j, k, r);
    }
  }

  /** The second position runs from i + 1; each step runs the third loop afresh. */
  method ScanSeconds(f: Positions -> Option<Contribution>, n: nat, i: nat, lqic: seq<Score>)
    returns (r: seq<Score>)
    requires Bounded(f, |lqic|) && i < n
    ensures r == FoldCollected(lqic, f, Seconds(i, n, n))
  {
    r := lqic;
    for j := i + 1 to n
      invariant r == FoldCollected(lqic, f, Seconds(i, n, j))
    {
      FoldCollectedAppend(lqic, f, Seconds(i, n, j), Thirds(i, j, n, n));
      r := ScanThirds(f, n, i, j, r);
    }
  }

  /** The outermost loop: the first position runs over the whole tour. */
  method ScanFirsts(f: Positions -> Option<Contribution>, n: nat, lqic: seq<Score>) returns (r: seq<Score>)
    requires Bounded(f, |lqic|)
    ensures r == FoldCollected(lqic, f, Firsts(n, n))
  {
    r := lqic;
    for i := 0 to n
      invariant r == FoldCollected(lqic, f, Firsts(n, i))
    {
      FoldCollectedAppend(lqic, f, Firsts(n, i), Seconds(i, n, n));
      r := ScanSeconds(f, n, i, r);
    }
  }

  // ----- The multifurcating computation

  /** Every increasing quadruple of tour positions, in loop order. */
  function AllQuadruples(tour: seq<nat>): (xs: seq<Positions>)
    ensures forall x :: x in xs <==> Increasing(x, |tour|)
  {
    FirstsMembers(|tour|, |tour|);
    Firsts(|tour|, |tour|)
  }

  /** The LQ-IC table the resolved quadruples among xs leave, folded in the order of xs. */
  function Multifurcating(ctx: Context, tour: seq<nat>, lqic: seq<Score>, xs: seq<Positions>): (r: seq<Score>)
    requires ctx.Valid() && |lqic| == ctx.tree.edgeCount
    ensures |r| == |lqic|
  {
    FoldCollected(lqic, Contributor(ctx, tour), xs)
  }

  /**
    LQ-IC for a possibly multifurcating tree: every increasing quadruple of
    tour positions, resolved quadruples folded in loop order. QP-IC and
    EQP-IC are not touched.
  */
  method ComputeMultifurcating(ctx: Context, tour: seq<nat>, tables: ScoreTables) returns (r: ScoreTables)
    requires ctx.Valid() && |tables.lqic| == ctx.tree.edgeCount
    ensures r.lqic == Multifurcating(ctx, tour, tables.lqic, AllQuadruples(tour))
    ensures r.qpic == tables.qpic && r.eqpic == tables.eqpic
  {
    var lqic := ScanFirsts(Contributor(ctx, tour), |tour|, tables.lqic);
    r := tables.(lqic := lqic);
  }

  /**
    After the loops, the LQ-IC score of every edge is at most the score of
    each resolved quadruple whose path holds it, and it is either the score
    the edge had before or the score of one such quadruple. Unresolved
    quadruples leave no trace.
  */
  lemma MultifurcatingIsPathMinimum(ctx: Context, tour: seq<nat>, lqic: seq<Score>)
    requires ctx.Valid() && |lqic| == ctx.tree.edgeCount
    ensures var r := Multifurcating(ctx, tour, lqic, AllQuadruples(tour));
            forall x, e :: Increasing(x, |tour|) && QuadContribution(ctx, tour, x).Some? &&
                           e in QuadContribution(ctx, tour, x).value.path ==>
              e < |r| && AtMost(r[e], Finite(QuadContribution(ctx, tour, x).value.score))
    ensures var r := Multifurcating(ctx, tour, lqic, AllQuadruples(tour));
            forall e :: 0 <= e < |r| ==>
              r[e] == lqic[e] ||
              exists x :: Increasing(x, |tour|) && QuadContribution(ctx, tour, x).Some? &&
                          e in QuadContribution(ctx, tour, x).value.path &&
                          r[e] == Finite(QuadContribution(ctx, tour, x).value.score)
  {
    FoldCollectedIsPathMinimum(lqic, Contributor(ctx, tour), AllQuadruples(tour));
  }

  /**
    The order the quadruples are processed in does not matter: any schedule
    that visits the same quadruples, such as the parallel loop's, gives the
    same LQ-IC table as the loops in order.
  */
  lemma MultifurcatingOrderIndependent(ctx: Context, tour: seq<nat>, lqic: seq<Score>, schedule: seq<Positions>)
    requires ctx.Valid() && |lqic| == ctx.tree.edgeCount
    requires forall x :: x in schedule <==> Increasing(x, |tour|)
    ensures Multifurcating(ctx, tour, lqic, schedule) == Multifurcating(ctx, tour, lqic, AllQuadruples(tour))
  {
    FoldCollectedOrderIndependent(lqic, Contributor(ctx, tour), schedule, AllQuadruples(tour));
  }
}
