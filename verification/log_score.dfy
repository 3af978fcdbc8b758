/**
  The quartet information content (QIC) of three topology counts, signed by
  whether the reference topology is also the most frequent one.

  The source computes p * log(p) / log(3) in floating point. That magnitude is
  not computed here: every member takes it as a function `xlogx` from a
  probability p in (0, 1] to p * log3(p), and states what it needs of it.
*/
module InformationContent {

  /** Occurrence counts of the three topologies of a quartet; q1 is the reference topology. */
  datatype Counts = Counts(q1: nat, q2: nat, q3: nat) {
    function Total(): nat {
      q1 + q2 + q3
    }

    predicate AllZero() {
      q1 == 0 && q2 == 0 && q3 == 0
    }

    /** The reference topology is at least as frequent as each alternative (ties included). */
    predicate ReferenceIsMajority() {
      q1 >= q2 && q1 >= q3
    }
  }

  /**
    What is known of x * log3(x) on (0, 1]: it is never positive, it never drops
    below -1/2 (its minimum is -1/(e ln 3), about -0.335), and it vanishes at 1.
  */
  ghost predicate IsXLogX(xlogx: real -> real) {
    && (forall p: real :: 0.0 < p <= 1.0 ==> -0.5 <= xlogx(p) <= 0.0)
    && xlogx(1.0) == 0.0
  }

  /** One summand of the QIC: p * log3(p) for p = count / total, and 0 when p is 0. */
  function EntropyTerm(count: nat, total: nat, xlogx: real -> real): real
    requires total > 0
  {
    var p := count as real / total as real;
    if p != 0.0 then xlogx(p) else 0.0
  }

  /** 1 + sum of p_i * log3(p_i): 1 for full agreement, 0 for a uniform split. */
  function Qic(q: Counts, xlogx: real -> real): real
    requires !q.AllZero()
  {
    var n := q.Total();
    1.0 + EntropyTerm(q.q1, n, xlogx) + EntropyTerm(q.q2, n, xlogx) + EntropyTerm(q.q3, n, xlogx)
  }

  /**
    The signed score of a quartet: 0 when it was never observed; otherwise its
    QIC, negated exactly when some alternative topology is strictly more
    frequent than the reference one. A tie for the maximum is not negated.
  */
  function LogScore(q: Counts, xlogx: real -> real): (r: real)
    ensures q.AllZero() ==> r == 0.0
    ensures !q.AllZero() && q.ReferenceIsMajority() ==> r == Qic(q, xlogx)
    ensures !q.AllZero() && !q.ReferenceIsMajority() ==> r == -Qic(q, xlogx)
  {
    if q.q1 == 0 && q.q2 == 0 && q.q3 == 0 then
      0.0
    else
      var qic := Qic(q, xlogx);
      if q.q1 < q.q2 || q.q1 < q.q3 then qic * -1.0 else qic
  }

  /** The ratio count / total of an observed quartet is a probability. */
  lemma ProbabilityBounds(count: nat, total: nat)
    requires 0 < total && count <= total
    ensures 0.0 <= count as real / total as real <= 1.0
  {
  }

  /** Every score lies in [-1, 1]. */
  lemma LogScoreBounds(q: Counts, xlogx: real -> real)
    requires IsXLogX(xlogx)
    ensures -1.0 <= LogScore(q, xlogx) <= 1.0
  {
    if !q.AllZero() {
      var n := q.Total();
      ProbabilityBounds(q.q1, n);
      ProbabilityBounds(q.q2, n);
      ProbabilityBounds(q.q3, n);
      assert -0.5 <= Qic(q, xlogx) <= 1.0;
    }
  }

  /** Full agreement of the evaluation trees with the reference topology scores 1. */
  lemma FullAgreementScoresOne(n: nat, xlogx: real -> real)
    requires n > 0
    requires IsXLogX(xlogx)
    ensures LogScore(Counts(n, 0, 0), xlogx) == 1.0
  {
    assert n as real / n as real == 1.0;
  }

  lemma OneThird(x: real)
    requires x > 0.0
    ensures x / (3.0 * x) == 1.0 / 3.0
  {
  }

  /** A uniform three-way split carries no information and scores 0. */
  lemma UniformSplitScoresZero(k: nat, xlogx: real -> real)
    requires k > 0
    requires xlogx(1.0 / 3.0) == -1.0 / 3.0
    ensures LogScore(Counts(k, k, k), xlogx) == 0.0
  {
    OneThird(k as real);
    assert (3 * k) as real == 3.0 * k as real;
  }

  /** Exchanging the two alternative topologies changes nothing. */
  lemma LogScoreAlternativesSymmetric(q: Counts, xlogx: real -> real)
    ensures LogScore(Counts(q.q1, q.q3, q.q2), xlogx) == LogScore(q, xlogx)
  {
  }

  /**
    Exchanging the reference topology with an alternative keeps the magnitude:
    only the sign depends on which count is the reference one.
  */
  lemma LogScoreMagnitudeSymmetric(q: Counts, xlogx: real -> real)
    ensures var r, s := LogScore(q, xlogx), LogScore(Counts(q.q2, q.q1, q.q3), xlogx);
            r == s || r == -s
  {
  }
}
