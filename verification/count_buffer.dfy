/**
  The metaquartet count buffer: for every node pair {u, v} of the reference
  tree, the running sum of the topology counts of the quartets it induces.
*/
module CountBuffer {
  import opened InformationContent

  /** A node pair as a key, smaller node first. */
  datatype NodePair = NodePair(first: nat, second: nat)

  /** `(min(u, v), max(u, v))`: the key of the unordered pair {u, v}. */
  function SortedPair(u: nat, v: nat): (p: NodePair)
    ensures p.first <= p.second
    ensures (p.first == u && p.second == v) || (p.first == v && p.second == u)
  {
    NodePair(if u < v then u else v, if u < v then v else u)
  }

  type Buffer = map<NodePair, Counts>

  function Plus(x: Counts, y: Counts): Counts
  {
    Counts(x.q1 + y.q1, x.q2 + y.q2, x.q3 + y.q3)
  }

  /** The counts recorded for {u, v}; zero for a pair never seen. */
  function Recorded(buffer: Buffer, u: nat, v: nat): Counts {
    var key := SortedPair(u, v);
    if key in buffer then buffer[key] else Counts(0, 0, 0)
  }

  /**
    Find-or-insert-then-add: creates the entry of {u, v} with zero counts when
    it is missing, then adds q to it. No other entry changes.
  */
  function AddCounts(buffer: Buffer, u: nat, v: nat, q: Counts): (r: Buffer)
    ensures r.Keys == buffer.Keys + {SortedPair(u, v)}
    ensures Recorded(r, u, v) == Plus(Recorded(buffer, u, v), q)
    ensures forall k :: k in buffer && k != SortedPair(u, v) ==> r[k] == buffer[k]
  {
    var key := SortedPair(u, v);
    var found := if key in buffer then buffer[key] else Counts(0, 0, 0);
    buffer[key := Plus(found, q)]
  }

  /** An addition raises the total recorded for its pair by the total added. */
  lemma AddCountsTotal(buffer: Buffer, u: nat, v: nat, q: Counts)
    ensures Recorded(AddCounts(buffer, u, v, q), u, v).Total() == Recorded(buffer, u, v).Total() + q.Total()
  {
    assert Recorded(AddCounts(buffer, u, v, q), u, v) == Plus(Recorded(buffer, u, v), q);
  }

  /** The buffer does not depend on the order the pair is named in. */
  lemma AddCountsSymmetric(buffer: Buffer, u: nat, v: nat, q: Counts)
    ensures AddCounts(buffer, u, v, q) == AddCounts(buffer, v, u, q)
  {
    assert SortedPair(u, v) == SortedPair(v, u);
  }

  /** One entry of the commuted additions. */
  lemma AddCountsCommuteAt(buffer: Buffer, u1: nat, v1: nat, q1: Counts, u2: nat, v2: nat, q2: Counts, k: NodePair)
    requires k in buffer.Keys + {SortedPair(u1, v1), SortedPair(u2, v2)}
    ensures k in AddCounts(AddCounts(buffer, u1, v1, q1), u2, v2, q2)
    ensures k in AddCounts(AddCounts(buffer, u2, v2, q2), u1, v1, q1)
    ensures AddCounts(AddCounts(buffer, u1, v1, q1), u2, v2, q2)[k]
         == AddCounts(AddCounts(buffer, u2, v2, q2), u1, v1, q1)[k]
  {
    var m1, m2 := AddCounts(buffer, u1, v1, q1), AddCounts(buffer, u2, v2, q2);
    var a, b := AddCounts(m1, u2, v2, q2), AddCounts(m2, u1, v1, q1);
    var k1, k2 := SortedPair(u1, v1), SortedPair(u2, v2);
    if k == k1 && k == k2 {
      var x := Recorded(buffer, u1, v1);
      assert Recorded(m1, u2, v2) == Plus(x, q1);
      assert Recorded(m2, u1, v1) == Plus(x, q2);
      assert a[k] == Plus(Plus(x, q1), q2);
      assert b[k] == Plus(Plus(x, q2), q1);
    } else if k == k1 {
      assert Recorded(m2, u1, v1) == Recorded(buffer, u1, v1);
      assert a[k] == m1[k];
    } else if k == k2 {
      assert Recorded(m1, u2, v2) == Recorded(buffer, u2, v2);
      assert b[k] == m2[k];
    } else {
      assert a[k] == m1[k] == buffer[k];
    }
  }

  /**
    Two additions commute, so the order in which quartets of different (or the
    same) node pairs are added does not change the buffer.
  */
  lemma AddCountsCommute(buffer: Buffer, u1: nat, v1: nat, q1: Counts, u2: nat, v2: nat, q2: Counts)
    ensures AddCounts(AddCounts(buffer, u1, v1, q1), u2, v2, q2)
         == AddCounts(AddCounts(buffer, u2, v2, q2), u1, v1, q1)
  {
    var a := AddCounts(AddCounts(buffer, u1, v1, q1), u2, v2, q2);
    var b := AddCounts(AddCounts(buffer, u2, v2, q2), u1, v1, q1);
    assert a.Keys == b.Keys by {
    }
    assert forall k | k in a :: a[k] == b[k] by {
      forall k | k in a ensures a[k] == b[k] {
        AddCountsCommuteAt(buffer, u1, v1, q1, u2, v2, q2, k);
      }
    }
  }
}
