/**
  The work done for one node pair {u, v} of a bifurcating reference tree.
  Two subtrees hang off u and two off v, away from the path u..v, and every
  choice of one leaf from each of them is a quartet ab|cd of the pair's
  metaquartet. Each such quartet adds its topology counts to the pair's
  running counts p1, p2, p3 and folds its own LQ-IC score onto its path. The
  pair's QP-IC score is then the score of p1, p2, p3. It is written onto the
  edge u-v when there is one, and folded onto every edge between u and v as
  EQP-IC.
*/
module MetaQuartet {
  import opened Wrappers
  import opened QuartetCodec
  import opened InformationContent
  import opened CountBuffer
  import opened EdgeScores
  import opened EulerTour
  import opened Topology

  /**
    What the scoring reads but does not compute: the reference tree, the
    topology counts of a quartet in the evaluation trees (the occurrence
    lookup), and the log magnitude x * log3(x).
  */
  datatype Context = Context(tree: RefTree, occurrences: (nat, nat, nat, nat) -> Counts, xlogx: real -> real)
  {
    ghost predicate Valid() {
      tree.Valid()
    }
  }

  /** 2^32, the range of the `unsigned` accumulators p1, p2, p3. */
  const UnsignedRange: nat := 0x1_0000_0000

  /** Every count reduced to its 32-bit representation. */
  function Wrap(c: Counts): Counts {
    Counts(c.q1 % UnsignedRange, c.q2 % UnsignedRange, c.q3 % UnsignedRange)
  }

  predicate FitsUnsigned(c: Counts) {
    c.q1 < UnsignedRange && c.q2 < UnsignedRange && c.q3 < UnsignedRange
  }

  function Occurrences(ctx: Context, q: Quartet): Counts {
    ctx.occurrences(q.a, q.b, q.c, q.d)
  }

  /** The LQ-IC score a single quartet contributes. */
  function QuartetScore(ctx: Context, q: Quartet): real {
    LogScore(Occurrences(ctx, q), ctx.xlogx)
  }

  /** The edges the LQ-IC score of ab|cd is folded onto. */
  function QuartetPath(ctx: Context, q: Quartet): (path: seq<nat>)
    requires ctx.Valid()
    ensures EdgesWithin(path, ctx.tree.edgeCount)
  {
    var ends := QuartetPathEnds(ctx.tree, q);
    ctx.tree.PathBetween(ends.from, ends.to)
  }

  /** The state the quartets of a metaquartet are folded into. */
  datatype Accumulator = Accumulator(p: Counts, lqic: seq<Score>)

  predicate Fits(ctx: Context, acc: Accumulator) {
    |acc.lqic| == ctx.tree.edgeCount
  }

  /** One quartet: its counts enter p1, p2, p3 and its score is folded onto its path. */
  function Step(ctx: Context, acc: Accumulator, q: Quartet): (r: Accumulator)
    requires ctx.Valid() && Fits(ctx, acc)
    ensures Fits(ctx, r)
  {
    Accumulator(Wrap(Plus(acc.p, Occurrences(ctx, q))),
                FoldPath(acc.lqic, QuartetPath(ctx, q), QuartetScore(ctx, q)))
  }

  /** The quartets processed in the given order. */
  function Fold(ctx: Context, acc: Accumulator, qs: seq<Quartet>): (r: Accumulator)
    requires ctx.Valid() && Fits(ctx, acc)
    ensures Fits(ctx, r)
    decreases |qs|
  {
    if |qs| == 0 then acc else Step(ctx, Fold(ctx, acc, qs[..|qs| - 1]), qs[|qs| - 1])
  }

  /** The exact (unbounded) sum of the topology counts of some quartets. */
  function Total(ctx: Context, qs: seq<Quartet>): Counts
    decreases |qs|
  {
    if |qs| == 0 then Counts(0, 0, 0) else Plus(Total(ctx, qs[..|qs| - 1]), Occurrences(ctx, qs[|qs| - 1]))
  }

  lemma FoldSnoc(ctx: Context, acc: Accumulator, qs: seq<Quartet>, q: Quartet)
    requires ctx.Valid() && Fits(ctx, acc)
    ensures Fold(ctx, acc, qs + [q]) == Step(ctx, Fold(ctx, acc, qs), q)
  {
    assert (qs + [q])[..|qs|] == qs;
  }

  /** Processing xs and then ys is processing xs + ys. */
  lemma {:induction false} FoldAppend(ctx: Context, acc: Accumulator, xs: seq<Quartet>, ys: seq<Quartet>)
    requires ctx.Valid() && Fits(ctx, acc)
    ensures Fold(ctx, acc, xs + ys) == Fold(ctx, Fold(ctx, acc, xs), ys)
    decreases |ys|
  {
    if |ys| == 0 {
      assert xs + ys == xs;
    } else {
      var zs, front, q := xs + ys, ys[..|ys| - 1], ys[|ys| - 1];
      assert zs[..|zs| - 1] == xs + front;
      assert zs[|zs| - 1] == q;
      calc {
        Fold(ctx, acc, zs);
        Step(ctx, Fold(ctx, acc, xs + front), q);
        { FoldAppend(ctx, acc, xs, front); }
        Step(ctx, Fold(ctx, Fold(ctx, acc, xs), front), q);
        Fold(ctx, Fold(ctx, acc, xs), ys);
      }
    }
  }

  lemma ModAddMultiple(z: nat, k: nat)
    ensures (z + k * UnsignedRange) % UnsignedRange == z % UnsignedRange
  {
    var m := UnsignedRange;
    var q, r := z / m, z % m;
    assert z == q * m + r;
    assert z + k * m == (q + k) * m + r;
  }

  /** Adding to a wrapped value and wrapping is wrapping the exact sum. */
  lemma ModAddMod(x: nat, y: nat)
    ensures (x % UnsignedRange + y) % UnsignedRange == (x + y) % UnsignedRange
  {
    var k := x / UnsignedRange;
    assert x == x % UnsignedRange + k * UnsignedRange;
    ModAddMultiple(x % UnsignedRange + y, k);
  }

  /** A wrapped count that fits in 32 bits is the count itself. */
  lemma WrapFitting(c: Counts)
    requires FitsUnsigned(c)
    ensures Wrap(c) == c
  {
  }

  lemma WrapPlus(s: Counts, c: Counts)
    ensures Wrap(Plus(Wrap(s), c)) == Wrap(Plus(s, c))
  {
    ModAddMod(s.q1, c.q1);
    ModAddMod(s.q2, c.q2);
    ModAddMod(s.q3, c.q3);
  }

  /**
    p1, p2, p3 after a fold from zero are the exact sums of the counts, taken
    modulo 2^32; when the sums fit in 32 bits they are the exact sums.
  */
  lemma {:induction false} FoldCountsAreWrappedTotals(ctx: Context, lqic: seq<Score>, qs: seq<Quartet>)
    requires ctx.Valid() && |lqic| == ctx.tree.edgeCount
    ensures Fold(ctx, Accumulator(Counts(0, 0, 0), lqic), qs).p == Wrap(Total(ctx, qs))
    ensures FitsUnsigned(Total(ctx, qs)) ==> Fold(ctx, Accumulator(Counts(0, 0, 0), lqic), qs).p == Total(ctx, qs)
    decreases |qs|
  {
    var init := Accumulator(Counts(0, 0, 0), lqic);
    if |qs| > 0 {
      var front, q := qs[..|qs| - 1], qs[|qs| - 1];
      FoldCountsAreWrappedTotals(ctx, lqic, front);
      var s, c := Total(ctx, front), Occurrences(ctx, q);
      assert Total(ctx, qs) == Plus(s, c);
      var prev := Fold(ctx, init, front);
      assert prev.p == Wrap(s);
      assert Fold(ctx, init, qs).p == Step(ctx, prev, q).p == Wrap(Plus(prev.p, c));
      WrapPlus(s, c);
    }
    if FitsUnsigned(Total(ctx, qs)) {
      WrapFitting(Total(ctx, qs));
    }
  }

  /**
    No LQ-IC score rises during a fold, and scores of quartets that lie in
    [-1, 1] keep every score in range.
  */
  lemma {:induction false} FoldLowersWithinRange(ctx: Context, acc: Accumulator, qs: seq<Quartet>)
    requires ctx.Valid() && Fits(ctx, acc)
    ensures NoneIncreased(Fold(ctx, acc, qs).lqic, acc.lqic)
    ensures IsXLogX(ctx.xlogx) && InRange(acc.lqic) ==> InRange(Fold(ctx, acc, qs).lqic)
    decreases |qs|
  {
    if |qs| > 0 {
      var prev := Fold(ctx, acc, qs[..|qs| - 1]);
      FoldLowersWithinRange(ctx, acc, qs[..|qs| - 1]);
      var q := qs[|qs| - 1];
      FoldPathLowersWithinRange(prev.lqic, QuartetPath(ctx, q), QuartetScore(ctx, q));
      NoneIncreasedTransitive(Fold(ctx, acc, qs).lqic, prev.lqic, acc.lqic);
      if IsXLogX(ctx.xlogx) {
        LogScoreBounds(Occurrences(ctx, q), ctx.xlogx);
      }
    }
  }

  /** Edge e lies on the path of quartet q. */
  predicate OnPath(ctx: Context, q: Quartet, e: nat)
    requires ctx.Valid()
  {
    e in QuartetPath(ctx, q)
  }

  /** The LQ-IC score of each quartet, paired with its path. */
  function Contributions(ctx: Context, qs: seq<Quartet>): (cs: seq<Contribution>)
    requires ctx.Valid()
    ensures |cs| == |qs| && AllWithin(cs, ctx.tree.edgeCount)
    ensures forall i :: 0 <= i < |qs| ==> cs[i] == Contribution(QuartetPath(ctx, qs[i]), QuartetScore(ctx, qs[i]))
  {
    seq(|qs|, i requires 0 <= i < |qs| => Contribution(QuartetPath(ctx, qs[i]), QuartetScore(ctx, qs[i])))
  }

  /** The LQ-IC side of the fold is the generic fold of the quartets' contributions. */
  lemma {:induction false} FoldLqicIsFoldAll(ctx: Context, acc: Accumulator, qs: seq<Quartet>)
    requires ctx.Valid() && Fits(ctx, acc)
    ensures Fold(ctx, acc, qs).lqic == FoldAll(acc.lqic, Contributions(ctx, qs))
    decreases |qs|
  {
    if |qs| > 0 {
      var front, q := qs[..|qs| - 1], qs[|qs| - 1];
      FoldLqicIsFoldAll(ctx, acc, front);
      assert Contributions(ctx, qs) == Contributions(ctx, front) + [Contribution(QuartetPath(ctx, q), QuartetScore(ctx, q))];
      FoldAllSnoc(acc.lqic, Contributions(ctx, front), Contribution(QuartetPath(ctx, q), QuartetScore(ctx, q)));
    }
  }

  /**
    After a fold, the LQ-IC score of every edge is the minimum of its score
    before and the scores of the quartets whose path holds it: it is at most
    each of them, and it equals one of them.
  */
  lemma FoldIsPathMinimum(ctx: Context, acc: Accumulator, qs: seq<Quartet>)
    requires ctx.Valid() && Fits(ctx, acc)
    ensures var r := Fold(ctx, acc, qs).lqic;
            forall i, e :: 0 <= i < |qs| && 0 <= e < |r| && OnPath(ctx, qs[i], e) ==>
              AtMost(r[e], Finite(QuartetScore(ctx, qs[i])))
    ensures var r := Fold(ctx, acc, qs).lqic;
            forall e :: 0 <= e < |r| ==>
              r[e] == acc.lqic[e] ||
              exists i :: 0 <= i < |qs| && OnPath(ctx, qs[i], e) && r[e] == Finite(QuartetScore(ctx, qs[i]))
  {
    var cs := Contributions(ctx, qs);
    FoldLqicIsFoldAll(ctx, acc, qs);
    FoldAllIsPathMinimum(acc.lqic, cs);
    var r := Fold(ctx, acc, qs).lqic;
    forall e | 0 <= e < |r| && r[e] != acc.lqic[e]
      ensures exists i :: 0 <= i < |qs| && OnPath(ctx, qs[i], e) && r[e] == Finite(QuartetScore(ctx, qs[i]))
    {
      var i :| 0 <= i < |cs| && e in cs[i].path && r[e] == Finite(cs[i].score);
      assert OnPath(ctx, qs[i], e);
    }
  }

  // The metaquartet as a cross product, in the order of the four nested loops:
  // the leaf of the first subtree changes slowest, that of the fourth fastest.

  function Row(a: nat, b: nat, c: nat, ds: seq<nat>): seq<Quartet>
    decreases |ds|
  {
    if |ds| == 0 then [] else Row(a, b, c, ds[..|ds| - 1]) + [Quartet(a, b, c, ds[|ds| - 1])]
  }

  function Plane(a: nat, b: nat, cs: seq<nat>, ds: seq<nat>): seq<Quartet>
    decreases |cs|
  {
    if |cs| == 0 then [] else Plane(a, b, cs[..|cs| - 1], ds) + Row(a, b, cs[|cs| - 1], ds)
  }

  function Cube(a: nat, bs: seq<nat>, cs: seq<nat>, ds: seq<nat>): seq<Quartet>
    decreases |bs|
  {
    if |bs| == 0 then [] else Cube(a, bs[..|bs| - 1], cs, ds) + Plane(a, bs[|bs| - 1], cs, ds)
  }

  function Cross(as_: seq<nat>, bs: seq<nat>, cs: seq<nat>, ds: seq<nat>): seq<Quartet>
    decreases |as_|
  {
    if |as_| == 0 then [] else Cross(as_[..|as_| - 1], bs, cs, ds) + Cube(as_[|as_| - 1], bs, cs, ds)
  }

  lemma MulSucc(x: nat, y: nat)
    ensures (x + 1) * y == x * y + y
  {
  }

  lemma {:induction false} RowMembers(a: nat, b: nat, c: nat, ds: seq<nat>)
    ensures |Row(a, b, c, ds)| == |ds|
    ensures forall q :: q in Row(a, b, c, ds) <==> q.a == a && q.b == b && q.c == c && q.d in ds
    decreases |ds|
  {
    if |ds| > 0 {
      RowMembers(a, b, c, ds[..|ds| - 1]);
      assert ds == ds[..|ds| - 1] + [ds[|ds| - 1]];
    }
  }

  lemma {:induction false} PlaneMembers(a: nat, b: nat, cs: seq<nat>, ds: seq<nat>)
    ensures |Plane(a, b, cs, ds)| == |cs| * |ds|
    ensures forall q :: q in Plane(a, b, cs, ds) <==> q.a == a && q.b == b && q.c in cs && q.d in ds
    decreases |cs|
  {
    if |cs| > 0 {
      var front, c := cs[..|cs| - 1], cs[|cs| - 1];
      PlaneMembers(a, b, front, ds);
      RowMembers(a, b, c, ds);
      assert cs == front + [c];
      MulSucc(|front|, |ds|);
    }
  }

  lemma {:induction false} CubeMembers(a: nat, bs: seq<nat>, cs: seq<nat>, ds: seq<nat>)
    ensures |Cube(a, bs, cs, ds)| == |bs| * (|cs| * |ds|)
    ensures forall q :: q in Cube(a, bs, cs, ds) <==> q.a == a && q.b in bs && q.c in cs && q.d in ds
    decreases |bs|
  {
    if |bs| > 0 {
      var front, b := bs[..|bs| - 1], bs[|bs| - 1];
      CubeMembers(a, front, cs, ds);
      PlaneMembers(a, b, cs, ds);
      assert bs == front + [b];
      MulSucc(|front|, |cs| * |ds|);
    }
  }

  /**
    The metaquartet holds exactly the quartets with one leaf from each
    subtree range, one entry per choice of the four leaves.
  */
  lemma {:induction false} CrossMembers(as_: seq<nat>, bs: seq<nat>, cs: seq<nat>, ds: seq<nat>)
    ensures |Cross(as_, bs, cs, ds)| == |as_| * (|bs| * (|cs| * |ds|))
    ensures forall q :: q in Cross(as_, bs, cs, ds) <==> q.a in as_ && q.b in bs && q.c in cs && q.d in ds
    decreases |as_|
  {
    if |as_| > 0 {
      var front, a := as_[..|as_| - 1], as_[|as_| - 1];
      CrossMembers(front, bs, cs, ds);
      CubeMembers(a, bs, cs, ds);
      assert as_ == front + [a];
      MulSucc(|front|, |bs| * (|cs| * |ds|));
    }
  }

  /** A range [start, end) of the Euler-tour leaf order, both ends reduced modulo the leaf count. */
  datatype LeafRange = LeafRange(start: nat, end: nat)

  predicate InTour(tour: seq<nat>, r: LeafRange) {
    r.start < |tour| && r.end < |tour|
  }

  function Leaves(tour: seq<nat>, r: LeafRange): seq<nat>
    requires InTour(tour, r)
  {
    RangeLeaves(tour, r.start, r.end)
  }

  /** The leaf ranges of the four subtrees of a metaquartet: two at u, then two at v. */
  datatype Subtrees = Subtrees(s1: LeafRange, s2: LeafRange, s3: LeafRange, s4: LeafRange)

  predicate SubtreesInTour(tour: seq<nat>, m: Subtrees) {
    InTour(tour, m.s1) && InTour(tour, m.s2) && InTour(tour, m.s3) && InTour(tour, m.s4)
  }

  /** The quartets of a metaquartet in the order they are processed. */
  function Quartets(tour: seq<nat>, m: Subtrees): seq<Quartet>
    requires SubtreesInTour(tour, m)
  {
    Cross(Leaves(tour, m.s1), Leaves(tour, m.s2), Leaves(tour, m.s3), Leaves(tour, m.s4))
  }

  // One step of each loop: the prefix of the leaves grows by one leaf, and the
  // quartets it adds are processed after those of the shorter prefix.

  lemma RowStep(ctx: Context, acc: Accumulator, a: nat, b: nat, c: nat, ds: seq<nat>, k: nat)
    requires ctx.Valid() && Fits(ctx, acc) && k < |ds|
    ensures Fold(ctx, acc, Row(a, b, c, ds[..k + 1])) == Step(ctx, Fold(ctx, acc, Row(a, b, c, ds[..k])), Quartet(a, b, c, ds[k]))
  {
    assert ds[..k + 1][..k] == ds[..k];
    FoldSnoc(ctx, acc, Row(a, b, c, ds[..k]), Quartet(a, b, c, ds[k]));
  }

  lemma PlaneStep(ctx: Context, acc: Accumulator, a: nat, b: nat, cs: seq<nat>, ds: seq<nat>, k: nat)
    requires ctx.Valid() && Fits(ctx, acc) && k < |cs|
    ensures Fold(ctx, acc, Plane(a, b, cs[..k + 1], ds)) == Fold(ctx, Fold(ctx, acc, Plane(a, b, cs[..k], ds)), Row(a, b, cs[k], ds))
  {
    assert cs[..k + 1][..k] == cs[..k];
    FoldAppend(ctx, acc, Plane(a, b, cs[..k], ds), Row(a, b, cs[k], ds));
  }

  lemma CubeStep(ctx: Context, acc: Accumulator, a: nat, bs: seq<nat>, cs: seq<nat>, ds: seq<nat>, k: nat)
    requires ctx.Valid() && Fits(ctx, acc) && k < |bs|
    ensures Fold(ctx, acc, Cube(a, bs[..k + 1], cs, ds)) == Fold(ctx, Fold(ctx, acc, Cube(a, bs[..k], cs, ds)), Plane(a, bs[k], cs, ds))
  {
    assert bs[..k + 1][..k] == bs[..k];
    FoldAppend(ctx, acc, Cube(a, bs[..k], cs, ds), Plane(a, bs[k], cs, ds));
  }

  lemma CrossStep(ctx: Context, acc: Accumulator, as_: seq<nat>, bs: seq<nat>, cs: seq<nat>, ds: seq<nat>, k: nat)
    requires ctx.Valid() && Fits(ctx, acc) && k < |as_|
    ensures Fold(ctx, acc, Cross(as_[..k + 1], bs, cs, ds)) == Fold(ctx, Fold(ctx, acc, Cross(as_[..k], bs, cs, ds)), Cube(as_[k], bs, cs, ds))
  {
    assert as_[..k + 1][..k] == as_[..k];
    FoldAppend(ctx, acc, Cross(as_[..k], bs, cs, ds), Cube(as_[k], bs, cs, ds));
  }

  /** The innermost loop: the fourth leaf walks its range. */
  method ScanRow(ctx: Context, tour: seq<nat>, a: nat, b: nat, c: nat, rd: LeafRange, acc: Accumulator)
    returns (r: Accumulator)
    requires ctx.Valid() && Fits(ctx, acc) && InTour(tour, rd)
    ensures r == Fold(ctx, acc, Row(a, b, c, Leaves(tour, rd)))
  {
    ghost var ds := Leaves(tour, rd);
    ghost var k: nat := 0;
    var i: nat := rd.start;
    r := acc;
    while i != rd.end
      invariant i < |tour|
      invariant k <= |ds|
      invariant CircularRange(|tour|, rd.start, rd.end)[k..] == CircularRange(|tour|, i, rd.end)
      invariant Fits(ctx, r)
      invariant r == Fold(ctx, acc, Row(a, b, c, ds[..k]))
      decreases Distance(|tour|, i, rd.end)
    {
      WalkStep(tour, rd.start, rd.end, k, i);
      RowStep(ctx, acc, a, b, c, ds, k);
      r := Step(ctx, r, Quartet(a, b, c, tour[i]));
      i := Next(|tour|, i);
      k := k + 1;
    }
    WalkEnd(tour, rd.start, rd.end, k);
    assert ds[..k] == ds;
  }

  /** The third leaf walks its range; each step runs the fourth loop afresh. */
  method ScanPlane(ctx: Context, tour: seq<nat>, a: nat, b: nat, rc: LeafRange, rd: LeafRange, acc: Accumulator)
    returns (r: Accumulator)
    requires ctx.Valid() && Fits(ctx, acc) && InTour(tour, rc) && InTour(tour, rd)
    ensures r == Fold(ctx, acc, Plane(a, b, Leaves(tour, rc), Leaves(tour, rd)))
  {
    ghost var cs, ds := Leaves(tour, rc), Leaves(tour, rd);
    ghost var k: nat := 0;
    var i: nat := rc.start;
    r := acc;
    while i != rc.end
      invariant i < |tour|
      invariant k <= |cs|
      invariant CircularRange(|tour|, rc.start, rc.end)[k..] == CircularRange(|tour|, i, rc.end)
      invariant Fits(ctx, r)
      invariant r == Fold(ctx, acc, Plane(a, b, cs[..k], ds))
      decreases Distance(|tour|, i, rc.end)
    {
      WalkStep(tour, rc.start, rc.end, k, i);
      PlaneStep(ctx, acc, a, b, cs, ds, k);
      r := ScanRow(ctx, tour, a, b, tour[i], rd, r);
      i := Next(|tour|, i);
      k := k + 1;
    }
    WalkEnd(tour, rc.start, rc.end, k);
    assert cs[..k] == cs;
  }

  /** The second leaf walks its range. */
  method ScanCube(ctx: Context, tour: seq<nat>, a: nat, rb: LeafRange, rc: LeafRange, rd: LeafRange, acc: Accumulator)
    returns (r: Accumulator)
    requires ctx.Valid() && Fits(ctx, acc) && InTour(tour, rb) && InTour(tour, rc) && InTour(tour, rd)
    ensures r == Fold(ctx, acc, Cube(a, Leaves(tour, rb), Leaves(tour, rc), Leaves(tour, rd)))
  {
    ghost var bs, cs, ds := Leaves(tour, rb), Leaves(tour, rc), Leaves(tour, rd);
    ghost var k: nat := 0;
    var i: nat := rb.start;
    r := acc;
    while i != rb.end
      invariant i < |tour|
      invariant k <= |bs|
      invariant CircularRange(|tour|, rb.start, rb.end)[k..] == CircularRange(|tour|, i, rb.end)
      invariant Fits(ctx, r)
      invariant r == Fold(ctx, acc, Cube(a, bs[..k], cs, ds))
      decreases Distance(|tour|, i, rb.end)
    {
      WalkStep(tour, rb.start, rb.end, k, i);
      CubeStep(ctx, acc, a, bs, cs, ds, k);
      r := ScanPlane(ctx, tour, a, tour[i], rc, rd, r);
      i := Next(|tour|, i);
      k := k + 1;
    }
    WalkEnd(tour, rb.start, rb.end, k);
    assert bs[..k] == bs;
  }

  /** The outermost loop: the first leaf walks its range. */
  method ScanMetaquartet(ctx: Context, tour: seq<nat>, m: Subtrees, acc: Accumulator) returns (r: Accumulator)
    requires ctx.Valid() && Fits(ctx, acc) && SubtreesInTour(tour, m)
    ensures r == Fold(ctx, acc, Quartets(tour, m))
  {
    ghost var as_, bs, cs, ds := Leaves(tour, m.s1), Leaves(tour, m.s2), Leaves(tour, m.s3), Leaves(tour, m.s4);
    ghost var k: nat := 0;
    var i: nat := m.s1.start;
    r := acc;
    while i != m.s1.end
      invariant i < |tour|
      invariant k <= |as_|
      invariant CircularRange(|tour|, m.s1.start, m.s1.end)[k..] == CircularRange(|tour|, i, m.s1.end)
      invariant Fits(ctx, r)
      invariant r == Fold(ctx, acc, Cross(as_[..k], bs, cs, ds))
      decreases Distance(|tour|, i, m.s1.end)
    {
      WalkStep(tour, m.s1.start, m.s1.end, k, i);
      CrossStep(ctx, acc, as_, bs, cs, ds, k);
      r := ScanCube(ctx, tour, tour[i], m.s2, m.s3, m.s4, r);
      i := Next(|tour|, i);
      k := k + 1;
    }
    WalkEnd(tour, m.s1.start, m.s1.end, k);
    assert as_[..k] == as_;
  }

  /** All three score tables have one entry per edge of the reference tree. */
  predicate TablesFit(ctx: Context, tables: ScoreTables) {
    |tables.lqic| == ctx.tree.edgeCount && |tables.qpic| == ctx.tree.edgeCount && |tables.eqpic| == ctx.tree.edgeCount
  }

  predicate LinksFit(ctx: Context, uLink: PrimaryLink, vLink: PrimaryLink) {
    uLink.edge < ctx.tree.edgeCount && vLink.edge < ctx.tree.edgeCount
  }

  /** The counts p1, p2, p3 of a node pair: its metaquartet's counts, summed in 32 bits. */
  function PairCounts(ctx: Context, tour: seq<nat>, m: Subtrees): Counts
    requires SubtreesInTour(tour, m)
  {
    Wrap(Total(ctx, Quartets(tour, m)))
  }

  /**
    The tables after the node pair {u, v}: the metaquartet's quartets folded
    into LQ-IC, then the score of the pair's counts written onto the edge u-v
    and folded onto the path u..v as EQP-IC.
  */
  function NodePairUpdate(ctx: Context, tour: seq<nat>, m: Subtrees, u: nat, v: nat,
                          uLink: PrimaryLink, vLink: PrimaryLink, tables: ScoreTables): (r: ScoreTables)
    requires ctx.Valid() && TablesFit(ctx, tables) && LinksFit(ctx, uLink, vLink) && SubtreesInTour(tour, m)
    ensures TablesFit(ctx, r)
  {
    var acc := Fold(ctx, Accumulator(Counts(0, 0, 0), tables.lqic), Quartets(tour, m));
    var qpic := LogScore(acc.p, ctx.xlogx);
    ScoreTables(acc.lqic,
                SetAdjacentScore(tables.qpic, u, v, uLink, vLink, qpic),
                FoldPath(tables.eqpic, ctx.tree.PathBetween(u, v), qpic))
  }

  /**
    What a node pair does to each table: LQ-IC and EQP-IC only fall, the score
    of the pair's counts (their 32-bit sums) is folded onto the path u..v as
    EQP-IC and written onto the edge u-v (if any) as QP-IC, and all scores
    stay in [-1, 1].
  */
  lemma NodePairUpdateEffect(ctx: Context, tour: seq<nat>, m: Subtrees, u: nat, v: nat,
                             uLink: PrimaryLink, vLink: PrimaryLink, tables: ScoreTables)
    requires ctx.Valid() && TablesFit(ctx, tables) && LinksFit(ctx, uLink, vLink) && SubtreesInTour(tour, m)
    ensures var r := NodePairUpdate(ctx, tour, m, u, v, uLink, vLink, tables);
            NoneIncreased(r.lqic, tables.lqic) && NoneIncreased(r.eqpic, tables.eqpic)
    ensures var r := NodePairUpdate(ctx, tour, m, u, v, uLink, vLink, tables);
            r.eqpic == FoldPath(tables.eqpic, ctx.tree.PathBetween(u, v), LogScore(PairCounts(ctx, tour, m), ctx.xlogx))
    ensures var r := NodePairUpdate(ctx, tour, m, u, v, uLink, vLink, tables);
            var qpic := LogScore(PairCounts(ctx, tour, m), ctx.xlogx);
            && (uLink.outerNode == v ==> r.qpic[uLink.edge] == Finite(qpic))
            && (uLink.outerNode != v && vLink.outerNode == u ==> r.qpic[vLink.edge] == Finite(qpic))
            && (!JoinedByPrimaryLink(u, v, uLink, vLink) ==> r.qpic == tables.qpic)
    ensures var r := NodePairUpdate(ctx, tour, m, u, v, uLink, vLink, tables);
            IsXLogX(ctx.xlogx) && InRange(tables.lqic) && InRange(tables.qpic) && InRange(tables.eqpic) ==>
              InRange(r.lqic) && InRange(r.qpic) && InRange(r.eqpic)
  {
    var qs := Quartets(tour, m);
    var init := Accumulator(Counts(0, 0, 0), tables.lqic);
    var acc := Fold(ctx, init, qs);
    FoldCountsAreWrappedTotals(ctx, tables.lqic, qs);
    FoldLowersWithinRange(ctx, init, qs);
    var qpic := LogScore(acc.p, ctx.xlogx);
    FoldPathLowersWithinRange(tables.eqpic, ctx.tree.PathBetween(u, v), qpic);
    if IsXLogX(ctx.xlogx) {
      LogScoreBounds(acc.p, ctx.xlogx);
    }
  }

  /**
    After a node pair, the LQ-IC score of every edge is at most the score of
    each quartet of the pair's metaquartet whose path holds it, and it is
    either the score it had before or the score of one such quartet.
  */
  lemma NodePairLqicIsPathMinimum(ctx: Context, tour: seq<nat>, m: Subtrees, u: nat, v: nat,
                                  uLink: PrimaryLink, vLink: PrimaryLink, tables: ScoreTables)
    requires ctx.Valid() && TablesFit(ctx, tables) && LinksFit(ctx, uLink, vLink) && SubtreesInTour(tour, m)
    ensures var r, qs := NodePairUpdate(ctx, tour, m, u, v, uLink, vLink, tables).lqic, Quartets(tour, m);
            forall i, e :: 0 <= i < |qs| && 0 <= e < |r| && OnPath(ctx, qs[i], e) ==>
              AtMost(r[e], Finite(QuartetScore(ctx, qs[i])))
    ensures var r, qs := NodePairUpdate(ctx, tour, m, u, v, uLink, vLink, tables).lqic, Quartets(tour, m);
            forall e :: 0 <= e < |r| ==>
              r[e] == tables.lqic[e] ||
              exists i :: 0 <= i < |qs| && OnPath(ctx, qs[i], e) && r[e] == Finite(QuartetScore(ctx, qs[i]))
  {
    FoldIsPathMinimum(ctx, Accumulator(Counts(0, 0, 0), tables.lqic), Quartets(tour, m));
  }

  /**
    Processes the node pair {u, v} with the loops of the source. Asking for
    the inner links of the path from a node to itself fails before anything
    is scored.
  */
  method ProcessNodePair(ctx: Context, tour: seq<nat>, m: Subtrees, u: nat, v: nat,
                         uLink: PrimaryLink, vLink: PrimaryLink, tables: ScoreTables)
    returns (r: Result<ScoreTables>)
    requires ctx.Valid() && TablesFit(ctx, tables) && LinksFit(ctx, uLink, vLink) && SubtreesInTour(tour, m)
    ensures u == v <==> r == Failure(NoInnerLinks)
    ensures u != v ==> r == Success(NodePairUpdate(ctx, tour, m, u, v, uLink, vLink, tables))
  {
    if u == v {
      return Failure(NoInnerLinks);
    }
    var acc := ScanMetaquartet(ctx, tour, m, Accumulator(Counts(0, 0, 0), tables.lqic));
    var qpic := LogScore(acc.p, ctx.xlogx);
    var qpicScores := SetAdjacentScore(tables.qpic, u, v, uLink, vLink, qpic);
    var eqpicScores := FoldPath(tables.eqpic, ctx.tree.PathBetween(u, v), qpic);
    return Success(ScoreTables(acc.lqic, qpicScores, eqpicScores));
  }
}
