/**
  Per-edge score tables (LQ-IC, QP-IC, EQP-IC) of the reference tree and the
  two ways a score reaches an edge: the minimum fold along a path, and the
  one-off assignment of a QP-IC score to the edge joining a node pair.
*/
module EdgeScores {
  import opened Wrappers

  /** A double score of an edge; +infinity means no quartet has reached the edge yet. */
  datatype Score = Infinity | Finite(value: real)

  /** The order of doubles, with +infinity on top. */
  predicate AtMost(s: Score, t: Score) {
    t.Infinity? || (s.Finite? && s.value <= t.value)
  }

  /** `std::min(s, x)`: keeps s unless x is strictly smaller. */
  function MinWith(s: Score, x: real): (r: Score)
    ensures r.Finite? && r.value <= x
    ensures AtMost(r, s)
    ensures r == s || r == Finite(x)
  {
    match s
    case Infinity => Finite(x)
    case Finite(v) => if x < v then Finite(x) else s
  }

  /** Every finite score lies in [-1, 1]. */
  predicate InRange(scores: seq<Score>) {
    forall e :: 0 <= e < |scores| && scores[e].Finite? ==> -1.0 <= scores[e].value <= 1.0
  }

  /** Nowhere higher than before. */
  predicate NoneIncreased(after: seq<Score>, before: seq<Score>) {
    |after| == |before| && forall e :: 0 <= e < |after| ==> AtMost(after[e], before[e])
  }

  predicate EdgesWithin(path: seq<nat>, edgeCount: nat) {
    forall i :: 0 <= i < |path| ==> path[i] < edgeCount
  }

  /**
    Folds score x by minimum onto every edge of a path, one edge after the other.
    The result is the same as applying the minimum once to each edge on the
    path: an edge listed twice is not lowered further, and every edge off the
    path keeps its score.
  */
  function FoldPath(scores: seq<Score>, path: seq<nat>, x: real): (r: seq<Score>)
    requires EdgesWithin(path, |scores|)
    ensures |r| == |scores|
    ensures forall e :: 0 <= e < |scores| ==> r[e] == if e in path then MinWith(scores[e], x) else scores[e]
    decreases |path|
  {
    if |path| == 0 then
      scores
    else
      var e := path[0];
      FoldPath(scores[e := MinWith(scores[e], x)], path[1..], x)
  }

  /** The score tables of the reference tree. */
  datatype ScoreTables = ScoreTables(lqic: seq<Score>, qpic: seq<Score>, eqpic: seq<Score>)

  /** A table of `edgeCount` entries, all +infinity. */
  function Unreached(edgeCount: nat): (r: seq<Score>)
    ensures |r| == edgeCount
    ensures forall e :: 0 <= e < edgeCount ==> r[e] == Infinity
  {
    seq(edgeCount, _ => Infinity)
  }

  /**
    Sizes and resets the tables: LQ-IC always, QP-IC and EQP-IC only for a
    bifurcating reference tree; in a multifurcating one nothing touches them,
    so they stay as they were constructed (empty).
  */
  function InitScores(tables: ScoreTables, edgeCount: nat, bifurcating: bool): (r: ScoreTables)
    ensures |r.lqic| == edgeCount && forall e :: 0 <= e < edgeCount ==> r.lqic[e] == Infinity
    ensures bifurcating ==> |r.qpic| == edgeCount && forall e :: 0 <= e < edgeCount ==> r.qpic[e] == Infinity
    ensures bifurcating ==> |r.eqpic| == edgeCount && forall e :: 0 <= e < edgeCount ==> r.eqpic[e] == Infinity
    ensures !bifurcating ==> r.qpic == tables.qpic && r.eqpic == tables.eqpic
  {
    if !bifurcating then
      tables.(lqic := Unreached(edgeCount))
    else
      ScoreTables(Unreached(edgeCount), Unreached(edgeCount), Unreached(edgeCount))
  }

  /** The primary link of a node: the node at its other end and the edge it lies on. */
  datatype PrimaryLink = PrimaryLink(outerNode: nat, edge: nat)

  /** u and v are neighbours through the primary link of u, or else through that of v. */
  predicate JoinedByPrimaryLink(u: nat, v: nat, uLink: PrimaryLink, vLink: PrimaryLink) {
    uLink.outerNode == v || vLink.outerNode == u
  }

  /**
    The QP-IC score of the node pair {u, v} is written (not folded) onto the edge
    joining u and v when they are neighbours; when they are not, nothing changes.
  */
  function SetAdjacentScore(qpic: seq<Score>, u: nat, v: nat, uLink: PrimaryLink, vLink: PrimaryLink, score: real)
    : (r: seq<Score>)
    requires uLink.outerNode == v ==> uLink.edge < |qpic|
    requires vLink.outerNode == u ==> vLink.edge < |qpic|
    ensures |r| == |qpic|
    ensures !JoinedByPrimaryLink(u, v, uLink, vLink) ==> r == qpic
    ensures uLink.outerNode == v ==> r[uLink.edge] == Finite(score)
    ensures uLink.outerNode != v && vLink.outerNode == u ==> r[vLink.edge] == Finite(score)
    ensures forall e :: 0 <= e < |r| && r[e] != qpic[e] ==>
              r[e] == Finite(score) && (e == uLink.edge || e == vLink.edge)
  {
    if uLink.outerNode == v then
      qpic[uLink.edge := Finite(score)]
    else if vLink.outerNode == u then
      qpic[vLink.edge := Finite(score)]
    else
      qpic
  }

  lemma AtMostTransitive(s: Score, t: Score, u: Score)
    requires AtMost(s, t) && AtMost(t, u)
    ensures AtMost(s, u)
  {
  }

  lemma NoneIncreasedTransitive(a: seq<Score>, b: seq<Score>, c: seq<Score>)
    requires NoneIncreased(a, b) && NoneIncreased(b, c)
    ensures NoneIncreased(a, c)
  {
    forall e | 0 <= e < |a| ensures AtMost(a[e], c[e]) {
      AtMostTransitive(a[e], b[e], c[e]);
    }
  }

  /** A fold never raises a score, and a fold of a score in [-1, 1] keeps every score in range. */
  lemma FoldPathLowersWithinRange(scores: seq<Score>, path: seq<nat>, x: real)
    requires EdgesWithin(path, |scores|)
    ensures NoneIncreased(FoldPath(scores, path, x), scores)
    ensures InRange(scores) && -1.0 <= x <= 1.0 ==> InRange(FoldPath(scores, path, x))
  {
  }

  /** Folding the same score along the same path twice changes nothing the second time. */
  lemma FoldPathIdempotent(scores: seq<Score>, path: seq<nat>, x: real)
    requires EdgesWithin(path, |scores|)
    ensures FoldPath(FoldPath(scores, path, x), path, x) == FoldPath(scores, path, x)
  {
    var once := FoldPath(scores, path, x);
    var twice := FoldPath(once, path, x);
    forall e | 0 <= e < |scores| ensures twice[e] == once[e] {
    }
  }

  /**
    Two folds commute: the order in which quartets reach the edges (and the
    order the parallel workers apply them in) does not change the tables.
  */
  lemma FoldPathCommutes(scores: seq<Score>, p1: seq<nat>, x1: real, p2: seq<nat>, x2: real)
    requires EdgesWithin(p1, |scores|) && EdgesWithin(p2, |scores|)
    ensures FoldPath(FoldPath(scores, p1, x1), p2, x2) == FoldPath(FoldPath(scores, p2, x2), p1, x1)
  {
    var a := FoldPath(FoldPath(scores, p1, x1), p2, x2);
    var b := FoldPath(FoldPath(scores, p2, x2), p1, x1);
    forall e | 0 <= e < |scores| ensures a[e] == b[e] {
    }
  }

  /** A score to be folded onto every edge of a path. */
  datatype Contribution = Contribution(path: seq<nat>, score: real)

  predicate AllWithin(cs: seq<Contribution>, edgeCount: nat) {
    forall i :: 0 <= i < |cs| ==> EdgesWithin(cs[i].path, edgeCount)
  }

  /** The contributions folded onto the table one after the other. */
  function FoldAll(scores: seq<Score>, cs: seq<Contribution>): (r: seq<Score>)
    requires AllWithin(cs, |scores|)
    ensures |r| == |scores|
    decreases |cs|
  {
    if |cs| == 0 then
      scores
    else
      var front, c := cs[..|cs| - 1], cs[|cs| - 1];
      FoldPath(FoldAll(scores, front), c.path, c.score)
  }

  lemma FoldAllSnoc(scores: seq<Score>, cs: seq<Contribution>, c: Contribution)
    requires AllWithin(cs, |scores|) && EdgesWithin(c.path, |scores|)
    ensures AllWithin(cs + [c], |scores|)
    ensures FoldAll(scores, cs + [c]) == FoldPath(FoldAll(scores, cs), c.path, c.score)
  {
    assert (cs + [c])[..|cs|] == cs;
    assert forall i :: 0 <= i < |cs| + 1 ==> (cs + [c])[i] == if i < |cs| then cs[i] else c;
  }

  /** Folding xs and then ys is folding xs + ys. */
  lemma {:induction false} FoldAllAppend(scores: seq<Score>, xs: seq<Contribution>, ys: seq<Contribution>)
    requires AllWithin(xs, |scores|) && AllWithin(ys, |scores|)
    ensures AllWithin(xs + ys, |scores|)
    ensures FoldAll(scores, xs + ys) == FoldAll(FoldAll(scores, xs), ys)
    decreases |ys|
  {
    assert forall i :: 0 <= i < |xs + ys| ==> (xs + ys)[i] == if i < |xs| then xs[i] else ys[i - |xs|];
    if |ys| == 0 {
      assert xs + ys == xs;
    } else {
      var front, c := ys[..|ys| - 1], ys[|ys| - 1];
      assert xs + ys == (xs + front) + [c];
      assert forall i :: 0 <= i < |front| ==> front[i] == ys[i];
      FoldAllAppend(scores, xs, front);
      FoldAllSnoc(scores, xs + front, c);
    }
  }

  /**
    After folding, the score of every edge is the minimum of its score before
    and the scores of the contributions whose path holds it: it is at most
    each of them, and it equals one of them. So the result does not depend on
    the order of the contributions.
  */
  lemma {:induction false} FoldAllIsPathMinimum(scores: seq<Score>, cs: seq<Contribution>)
    requires AllWithin(cs, |scores|)
    ensures var r := FoldAll(scores, cs);
            forall i, e :: 0 <= i < |cs| && 0 <= e < |r| && e in cs[i].path ==> AtMost(r[e], Finite(cs[i].score))
    ensures var r := FoldAll(scores, cs);
            forall e :: 0 <= e < |r| ==>
              r[e] == scores[e] || exists i :: 0 <= i < |cs| && e in cs[i].path && r[e] == Finite(cs[i].score)
    decreases |cs|
  {
    if |cs| > 0 {
      var front, c := cs[..|cs| - 1], cs[|cs| - 1];
      var prev, r := FoldAll(scores, front), FoldAll(scores, cs);
      FoldAllIsPathMinimum(scores, front);
      FoldPathLowersWithinRange(prev, c.path, c.score);
      forall i, e | 0 <= i < |cs| && 0 <= e < |r| && e in cs[i].path
        ensures AtMost(r[e], Finite(cs[i].score))
      {
        if i < |front| {
          assert front[i] == cs[i];
          AtMostTransitive(r[e], prev[e], Finite(cs[i].score));
        }
      }
      forall e | 0 <= e < |r| && r[e] != scores[e]
        ensures exists i :: 0 <= i < |cs| && e in cs[i].path && r[e] == Finite(cs[i].score)
      {
        if r[e] == prev[e] {
          var i :| 0 <= i < |front| && e in front[i].path && prev[e] == Finite(front[i].score);
          assert cs[i] == front[i];
        } else {
          assert e in cs[|cs| - 1].path;
        }
      }
    }
  }

  /** Every contribution's score lies in [-1, 1]. */
  predicate ScoresInRange(cs: seq<Contribution>) {
    forall i :: 0 <= i < |cs| ==> -1.0 <= cs[i].score <= 1.0
  }

  /** Folding never raises a score, and contributions in [-1, 1] keep the table in range. */
  lemma {:induction false} FoldAllLowersWithinRange(scores: seq<Score>, cs: seq<Contribution>)
    requires AllWithin(cs, |scores|)
    ensures NoneIncreased(FoldAll(scores, cs), scores)
    ensures InRange(scores) && ScoresInRange(cs) ==> InRange(FoldAll(scores, cs))
    decreases |cs|
  {
    if |cs| > 0 {
      var front, c := cs[..|cs| - 1], cs[|cs| - 1];
      var prev := FoldAll(scores, front);
      FoldAllLowersWithinRange(scores, front);
      FoldPathLowersWithinRange(prev, c.path, c.score);
      NoneIncreasedTransitive(FoldAll(scores, cs), prev, scores);
      if ScoresInRange(cs) {
        assert ScoresInRange(front) by {
          assert forall i :: 0 <= i < |front| ==> front[i] == cs[i];
        }
        assert -1.0 <= c.score <= 1.0;
      }
    }
  }

  /** Two scores that are each at most the other are the same score. */
  lemma AtMostAntisymmetric(s: Score, t: Score)
    requires AtMost(s, t) && AtMost(t, s)
    ensures s == t
  {
  }

  /**
    The fold does not depend on the order of the contributions: two sequences
    holding the same contributions give the same table.
  */
  lemma FoldAllSameContributions(scores: seq<Score>, xs: seq<Contribution>, ys: seq<Contribution>)
    requires AllWithin(xs, |scores|) && AllWithin(ys, |scores|)
    requires forall c :: c in xs <==> c in ys
    ensures FoldAll(scores, xs) == FoldAll(scores, ys)
  {
    var a, b := FoldAll(scores, xs), FoldAll(scores, ys);
    FoldAllIsPathMinimum(scores, xs);
    FoldAllIsPathMinimum(scores, ys);
    FoldAllLowersWithinRange(scores, xs);
    FoldAllLowersWithinRange(scores, ys);
    forall e | 0 <= e < |scores| ensures a[e] == b[e] {
      BelowEither(scores, xs, ys, e);
      BelowEither(scores, ys, xs, e);
      AtMostAntisymmetric(a[e], b[e]);
    }
  }

  /** One direction of the comparison in FoldAllSameContributions, at one edge. */
  lemma BelowEither(scores: seq<Score>, xs: seq<Contribution>, ys: seq<Contribution>, e: nat)
    requires AllWithin(xs, |scores|) && AllWithin(ys, |scores|)
    requires forall c :: c in xs <==> c in ys
    requires e < |scores|
    ensures AtMost(FoldAll(scores, ys)[e], FoldAll(scores, xs)[e])
  {
    var a, b := FoldAll(scores, xs), FoldAll(scores, ys);
    FoldAllIsPathMinimum(scores, xs);
    FoldAllIsPathMinimum(scores, ys);
    FoldAllLowersWithinRange(scores, ys);
    if a[e] != scores[e] {
      var i :| 0 <= i < |xs| && e in xs[i].path && a[e] == Finite(xs[i].score);
      assert xs[i] in ys;
      var j :| 0 <= j < |ys| && ys[j] == xs[i];
      assert AtMost(b[e], Finite(ys[j].score));
    }
  }

  /** The contributions f gives for the items xs, in order; items it gives none for are skipped. */
  function Collect<X>(f: X -> Option<Contribution>, xs: seq<X>): seq<Contribution>
    decreases |xs|
  {
    if |xs| == 0 then
      []
    else
      var front := Collect(f, xs[..|xs| - 1]);
      match f(xs[|xs| - 1])
      case None => front
      case Some(c) => front + [c]
  }

  lemma CollectSnoc<X>(f: X -> Option<Contribution>, xs: seq<X>, x: X)
    ensures Collect(f, xs + [x]) == Collect(f, xs) + if f(x).Some? then [f(x).value] else []
  {
    assert (xs + [x])[..|xs|] == xs;
  }

  lemma {:induction false} CollectAppend<X>(f: X -> Option<Contribution>, xs: seq<X>, ys: seq<X>)
    ensures Collect(f, xs + ys) == Collect(f, xs) + Collect(f, ys)
    decreases |ys|
  {
    if |ys| == 0 {
      assert xs + ys == xs;
    } else {
      var front, y := ys[..|ys| - 1], ys[|ys| - 1];
      assert xs + ys == (xs + front) + [y];
      assert ys == front + [y];
      CollectAppend(f, xs, front);
      CollectSnoc(f, xs + front, y);
      CollectSnoc(f, front, y);
    }
  }

  /** A contribution is collected exactly when f gives it for one of the items. */
  lemma {:induction false} CollectMembers<X>(f: X -> Option<Contribution>, xs: seq<X>)
    ensures forall c :: c in Collect(f, xs) <==> exists m :: 0 <= m < |xs| && f(xs[m]) == Some(c)
    decreases |xs|
  {
    if |xs| > 0 {
      var front, x := xs[..|xs| - 1], xs[|xs| - 1];
      CollectMembers(f, front);
      forall c ensures c in Collect(f, xs) <==> exists m :: 0 <= m < |xs| && f(xs[m]) == Some(c) {
        if c in Collect(f, front) {
          var m :| 0 <= m < |front| && f(front[m]) == Some(c);
          assert xs[m] == front[m];
        }
        if exists m :: 0 <= m < |xs| && f(xs[m]) == Some(c) {
          var m :| 0 <= m < |xs| && f(xs[m]) == Some(c);
          if m < |front| {
            assert front[m] == xs[m];
          }
        }
      }
    }
  }

  /** Every contribution f gives has its path within a table of edgeCount edges. */
  ghost predicate Bounded<X(!new)>(f: X -> Option<Contribution>, edgeCount: nat) {
    forall x :: f(x).Some? ==> EdgesWithin(f(x).value.path, edgeCount)
  }

  /** Paths within the table stay within it when collected. */
  lemma {:induction false} CollectWithin<X(!new)>(f: X -> Option<Contribution>, xs: seq<X>, edgeCount: nat)
    requires Bounded(f, edgeCount)
    ensures AllWithin(Collect(f, xs), edgeCount)
    decreases |xs|
  {
    if |xs| > 0 {
      CollectWithin(f, xs[..|xs| - 1], edgeCount);
    }
  }

  /** The contributions f gives for xs, folded onto the table in order. */
  function FoldCollected<X(!new)>(scores: seq<Score>, f: X -> Option<Contribution>, xs: seq<X>): (r: seq<Score>)
    requires Bounded(f, |scores|)
    ensures |r| == |scores|
  {
    CollectWithin(f, xs, |scores|);
    FoldAll(scores, Collect(f, xs))
  }

  /** Visiting one more item folds its contribution, if it gives one, onto the table. */
  lemma FoldCollectedSnoc<X(!new)>(scores: seq<Score>, f: X -> Option<Contribution>, xs: seq<X>, x: X)
    requires Bounded(f, |scores|)
    ensures FoldCollected(scores, f, xs + [x])
            == if f(x).Some? then FoldPath(FoldCollected(scores, f, xs), f(x).value.path, f(x).value.score)
               else FoldCollected(scores, f, xs)
  {
    CollectSnoc(f, xs, x);
    CollectWithin(f, xs, |scores|);
    if f(x).Some? {
      FoldAllSnoc(scores, Collect(f, xs), f(x).value);
    }
  }

  /** Visiting xs and then ys is folding ys onto the table that xs left. */
  lemma FoldCollectedAppend<X(!new)>(scores: seq<Score>, f: X -> Option<Contribution>, xs: seq<X>, ys: seq<X>)
    requires Bounded(f, |scores|)
    ensures FoldCollected(scores, f, xs + ys) == FoldCollected(FoldCollected(scores, f, xs), f, ys)
  {
    CollectAppend(f, xs, ys);
    CollectWithin(f, xs, |scores|);
    CollectWithin(f, ys, |scores|);
    FoldAllAppend(scores, Collect(f, xs), Collect(f, ys));
  }

  /**
    After visiting xs, the score of every edge is at most the score of each
    contribution given for an item of xs whose path holds the edge, and it is
    either the score the edge had before or the score of one such contribution.
  */
  lemma FoldCollectedIsPathMinimum<X(!new)>(scores: seq<Score>, f: X -> Option<Contribution>, xs: seq<X>)
    requires Bounded(f, |scores|)
    ensures var r := FoldCollected(scores, f, xs);
            forall x, e :: x in xs && f(x).Some? && e in f(x).value.path ==>
              e < |r| && AtMost(r[e], Finite(f(x).value.score))
    ensures var r := FoldCollected(scores, f, xs);
            forall e :: 0 <= e < |r| ==>
              r[e] == scores[e] ||
              exists x :: x in xs && f(x).Some? && e in f(x).value.path && r[e] == Finite(f(x).value.score)
  {
    var cs := Collect(f, xs);
    CollectWithin(f, xs, |scores|);
    var r := FoldAll(scores, cs);
    CollectMembers(f, xs);
    FoldAllIsPathMinimum(scores, cs);
    forall x, e | x in xs && f(x).Some? && e in f(x).value.path
      ensures e < |r| && AtMost(r[e], Finite(f(x).value.score))
    {
      var m :| 0 <= m < |xs| && xs[m] == x;
      assert f(x).value in cs;
      var n :| 0 <= n < |cs| && cs[n] == f(x).value;
    }
    forall e | 0 <= e < |r| && r[e] != scores[e]
      ensures exists x :: x in xs && f(x).Some? && e in f(x).value.path && r[e] == Finite(f(x).value.score)
    {
      var n :| 0 <= n < |cs| && e in cs[n].path && r[e] == Finite(cs[n].score);
      assert cs[n] in cs;
      var m :| 0 <= m < |xs| && f(xs[m]) == Some(cs[n]);
      assert xs[m] in xs;
    }
  }

  /** Visiting the same items in any order, repeats included, gives the same table. */
  lemma FoldCollectedOrderIndependent<X(!new)>(scores: seq<Score>, f: X -> Option<Contribution>, xs: seq<X>, ys: seq<X>)
    requires Bounded(f, |scores|)
    requires forall x :: x in xs <==> x in ys
    ensures FoldCollected(scores, f, xs) == FoldCollected(scores, f, ys)
  {
    var cs1, cs2 := Collect(f, xs), Collect(f, ys);
    CollectWithin(f, xs, |scores|);
    CollectWithin(f, ys, |scores|);
    CollectMembers(f, xs);
    CollectMembers(f, ys);
    forall c ensures c in cs1 <==> c in cs2 {
      if c in cs1 {
        var m :| 0 <= m < |xs| && f(xs[m]) == Some(c);
        assert xs[m] in ys;
        var n :| 0 <= n < |ys| && ys[n] == xs[m];
      }
      if c in cs2 {
        var n :| 0 <= n < |ys| && f(ys[n]) == Some(c);
        assert ys[n] in xs;
        var m :| 0 <= m < |xs| && xs[m] == ys[n];
      }
    }
    FoldAllSameContributions(scores, cs1, cs2);
  }
}
