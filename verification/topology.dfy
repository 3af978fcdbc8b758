/**
  The reference tree as the scoring core sees it, through the answers of its
  ancestor and distance queries, and the choice of the topology a reference
  tree shows on four leaves.
*/
module Topology {
  import opened Wrappers
  import opened QuartetCodec

  /**
    The reference-tree queries the core consumes. Node, edge and taxon ids are
    stable integers. The answers are given, not computed:
    - `lca(x, y, r)`: the lowest common ancestor of x and y when the tree is rooted at r;
    - `distance(x, y)`: the number of edges between x and y;
    - `pathEdges(x, y, l)`: the edges met walking from x to y through their LCA l,
      the LCA's own item skipped.
  */
  datatype RefTree = RefTree(
    root: nat,
    edgeCount: nat,
    lca: (nat, nat, nat) -> nat,
    distance: (nat, nat) -> nat,
    pathEdges: (nat, nat, nat) -> seq<nat>)
  {
    /** Every path reports only edges of the tree. */
    ghost predicate Valid() {
      forall x, y, l, i :: 0 <= i < |pathEdges(x, y, l)| ==> pathEdges(x, y, l)[i] < edgeCount
    }

    /** The edges between x and y, found through their LCA under the root. */
    function PathBetween(x: nat, y: nat): (path: seq<nat>)
      requires Valid()
      ensures forall i :: 0 <= i < |path| ==> path[i] < edgeCount
    {
      pathEdges(x, y, lca(x, y, root))
    }
  }

  /** The three ways of splitting {u, v, w, z} into two pairs. */
  datatype Split = UvWz | UwVz | UzVw

  /**
    The split a reference tree resolves: the one whose two LCAs are strictly
    further apart than those of both other splits. A tie for the largest
    distance leaves the quadruple unresolved.
  */
  function ResolveSplit(dUvWz: nat, dUwVz: nat, dUzVw: nat): (r: Option<Split>)
    ensures r == Some(UvWz) <==> dUvWz > dUwVz && dUvWz > dUzVw
    ensures r == Some(UwVz) <==> dUwVz > dUvWz && dUwVz > dUzVw
    ensures r == Some(UzVw) <==> dUzVw > dUvWz && dUzVw > dUwVz
    ensures r.None? <==> (dUvWz == dUwVz >= dUzVw) || (dUvWz == dUzVw >= dUwVz) || (dUwVz == dUzVw >= dUvWz)
  {
    if dUvWz > dUwVz && dUvWz > dUzVw then
      Some(UvWz)
    else if dUwVz > dUvWz && dUwVz > dUzVw then
      Some(UwVz)
    else if dUzVw > dUvWz && dUzVw > dUwVz then
      Some(UzVw)
    else
      None
  }

  /** The quadruple written as ab|cd for a split: u stays first, its partner second. */
  function Arrange(split: Split, u: nat, v: nat, w: nat, z: nat): (q: Quartet)
    ensures q.a == u
    ensures q.Taxa() == multiset{u, v, w, z}
    ensures split == UvWz ==> q.b == v
    ensures split == UwVz ==> q.b == w
    ensures split == UzVw ==> q.b == z
  {
    var q := match split
      case UvWz => Quartet(u, v, w, z)
      case UwVz => Quartet(u, w, v, z)
      case UzVw => Quartet(u, z, v, w);
    SameOccurrences(q, Quartet(u, v, w, z));
    q
  }

  /** The LCA-to-LCA distances of the three splits of {u, v, w, z}. */
  datatype SplitDistances = SplitDistances(uvWz: nat, uwVz: nat, uzVw: nat)

  function Distances(t: RefTree, u: nat, v: nat, w: nat, z: nat): SplitDistances {
    var lcaUv, lcaUw, lcaUz := t.lca(u, v, t.root), t.lca(u, w, t.root), t.lca(u, z, t.root);
    var lcaVw, lcaVz, lcaWz := t.lca(v, w, t.root), t.lca(v, z, t.root), t.lca(w, z, t.root);
    SplitDistances(t.distance(lcaUv, lcaWz), t.distance(lcaUw, lcaVz), t.distance(lcaUz, lcaVw))
  }

  /**
    The topology ab|cd the reference tree shows on {u, v, w, z}, or None when
    the LCA distances tie and the quadruple is skipped. The chosen pairing is
    the one whose LCAs are strictly furthest apart.
  */
  function ResolveQuadruple(t: RefTree, u: nat, v: nat, w: nat, z: nat): (r: Option<Quartet>)
    ensures r.Some? ==> r.value.a == u && r.value.Taxa() == multiset{u, v, w, z}
    ensures var d := Distances(t, u, v, w, z);
            r == Some(Quartet(u, v, w, z)) <== d.uvWz > d.uwVz && d.uvWz > d.uzVw
    ensures var d := Distances(t, u, v, w, z);
            r == Some(Quartet(u, w, v, z)) <== d.uwVz > d.uvWz && d.uwVz > d.uzVw
    ensures var d := Distances(t, u, v, w, z);
            r == Some(Quartet(u, z, v, w)) <== d.uzVw > d.uvWz && d.uzVw > d.uwVz
    ensures var d := Distances(t, u, v, w, z);
            r.None? <==> ResolveSplit(d.uvWz, d.uwVz, d.uzVw).None?
  {
    var d := Distances(t, u, v, w, z);
    match ResolveSplit(d.uvWz, d.uwVz, d.uzVw)
    case None => None
    case Some(split) => Some(Arrange(split, u, v, w, z))
  }

  /** At most one split can be the strict maximum, so the resolution is never ambiguous. */
  lemma AtMostOneStrictMaximum(d1: nat, d2: nat, d3: nat)
    ensures !((d1 > d2 && d1 > d3) && (d2 > d1 && d2 > d3))
    ensures !((d1 > d2 && d1 > d3) && (d3 > d1 && d3 > d2))
    ensures !((d2 > d1 && d2 > d3) && (d3 > d1 && d3 > d2))
  {
  }

  /** The two end nodes of a path through the reference tree. */
  datatype PathEnds = PathEnds(from: nat, to: nat)

  /**
    The two ends of the path of ab|cd that its LQ-IC score is folded onto.
    Whichever of lca(a, b) and lca(c, d) lies below the other is kept as it
    is; the other pair's LCA is taken with the tree rooted at it.
  */
  function QuartetPathEnds(t: RefTree, q: Quartet): (ends: PathEnds)
    ensures ends.from == t.lca(q.a, q.b, t.root) || ends.from == t.lca(q.a, q.b, ends.to)
    ensures ends.to == t.lca(q.c, q.d, t.root) || ends.to == t.lca(q.c, q.d, ends.from)
  {
    var lcaAb := t.lca(q.a, q.b, t.root);
    var lcaCd := t.lca(q.c, q.d, t.root);
    if lcaCd == t.lca(q.c, q.d, lcaAb) then
      PathEnds(t.lca(q.a, q.b, lcaCd), lcaCd)
    else
      PathEnds(lcaAb, t.lca(q.c, q.d, lcaAb))
  }

  /**
    The node pair {u, v} whose metaquartet holds the quartet ab|cd: u belongs
    to the pair {a, b} and v to {c, d}, and one of them is taken with the tree
    rooted at the other.
  */
  function NodePairForQuartet(t: RefTree, q: Quartet): (ends: PathEnds)
    ensures ends.from == t.lca(q.a, q.b, t.root) || ends.from == t.lca(q.a, q.b, ends.to)
    ensures ends.to == t.lca(q.c, q.d, t.root) || ends.to == t.lca(q.c, q.d, ends.from)
  {
    var u := t.lca(q.a, q.b, t.root);
    var v := t.lca(q.c, q.d, t.root);
    if u == t.lca(q.a, q.b, v) then PathEnds(u, t.lca(q.c, q.d, u)) else PathEnds(t.lca(q.a, q.b, v), v)
  }

  /** The LCA query does not depend on the order its two nodes are named in. */
  ghost predicate LcaSymmetric(t: RefTree) {
    forall x, y, r :: t.lca(x, y, r) == t.lca(y, x, r)
  }

  /**
    Neither the path of a quartet nor its node pair depends on the order
    within the pairs {a, b} and {c, d}.
  */
  lemma EndsIgnoreOrderWithinPairs(t: RefTree, q: Quartet)
    requires LcaSymmetric(t)
    ensures forall s :: s in {Quartet(q.b, q.a, q.c, q.d), Quartet(q.a, q.b, q.d, q.c), Quartet(q.b, q.a, q.d, q.c)} ==>
              QuartetPathEnds(t, s) == QuartetPathEnds(t, q) && NodePairForQuartet(t, s) == NodePairForQuartet(t, q)
  {
  }
}
