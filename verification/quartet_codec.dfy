/**
  The quartet index codec: a 4-taxon set together with a topology tag is packed
  into one 64-bit key (four 15-bit taxon slots at bit offsets 49, 34, 19 and 4,
  the tag in the low bits), and a key is unpacked into its four slots again.

  Taxa are size_t values in the source; they are `nat` here, and every place
  where the 64-bit width changes a result is written out modulo 2^64.
*/
module QuartetCodec {

  /** 2^64: uint64_t and size_t arithmetic wraps modulo this. */
  const Word: nat := 0x1_0000_0000_0000_0000

  /** Number of values a 15-bit key slot can hold (2^15). */
  const SlotSize: nat := 0x8000

  /** Multipliers 2^49, 2^34, 2^19 and 2^4 of the left shifts that place the four slots. */
  const Slot1Scale: nat := 0x2_0000_0000_0000
  const Slot2Scale: nat := 0x4_0000_0000
  const Slot3Scale: nat := 0x8_0000
  const Slot4Scale: nat := 0x10

  /** Four taxa in a fixed presentation order. */
  datatype Quartet = Quartet(a: nat, b: nat, c: nat, d: nat) {
    function Taxa(): multiset<nat> {
      multiset{a, b, c, d}
    }
  }

  predicate Distinct(a: nat, b: nat, c: nat, d: nat) {
    a != b && a != c && a != d && b != c && b != d && c != d
  }

  function Min(x: nat, y: nat): nat { if x < y then x else y }
  function Max(x: nat, y: nat): nat { if x < y then y else x }

  /** Case `x` of the tag: both of a, b lie below both of c, d, or neither does. */
  predicate SeparatedPairs(a: nat, b: nat, c: nat, d: nat) {
    var ac, ad, bc, bd := a < c, a < d, b < c, b < d;
    (ac && ad && bc && bd) || (!ac && !bc && !ad && !bd)
  }

  /** Case `z` of the tag: one pair lies inside the range the other pair spans. */
  predicate NestedPairs(a: nat, b: nat, c: nat, d: nat) {
    var ac, ad, bc, bd := a < c, a < d, b < c, b < d;
    var abInCd := (!ac && ad && !bc && bd) || (!ad && ac && !bd && bc);
    var cdInAb := (ac && !bc && ad && !bd) || (bc && !ac && bd && !ad);
    abInCd || cdInAb
  }

  /**
    The topology tag of (a,b | c,d): 0 when the pairs are separated, 2 when one is
    nested in the other, 1 (the crossing case) otherwise. The source asserts that
    exactly one of the three cases holds; the contract states it.
  */
  function TupleIndex(a: nat, b: nat, c: nat, d: nat): (r: nat)
    ensures r < 3
    ensures r == 0 <==> SeparatedPairs(a, b, c, d)
    ensures r == 2 <==> NestedPairs(a, b, c, d)
    ensures r == 1 <==> !SeparatedPairs(a, b, c, d) && !NestedPairs(a, b, c, d)
  {
    var x := SeparatedPairs(a, b, c, d);
    var z := NestedPairs(a, b, c, d);
    var y := !x && !z;
    (if y then 1 else 0) + 2 * (if z then 1 else 0)
  }

  /** 1 when x is y, else 0: one term of a multiplicity count. */
  function Once(x: nat, y: nat): nat {
    if x == y then 1 else 0
  }

  /** How often x occurs among the four taxa of t. */
  function Occurs(x: nat, t: Quartet): nat {
    Once(x, t.a) + Once(x, t.b) + Once(x, t.c) + Once(x, t.d)
  }

  lemma OccursIsMultiplicity(x: nat, t: Quartet)
    ensures t.Taxa()[x] == Occurs(x, t)
  {
  }

  lemma SameOccurrences(s: Quartet, t: Quartet)
    requires forall x :: Occurs(x, s) == Occurs(x, t)
    ensures s.Taxa() == t.Taxa()
  {
    forall x ensures s.Taxa()[x] == t.Taxa()[x] {
      OccursIsMultiplicity(x, s);
      OccursIsMultiplicity(x, t);
    }
  }

  /** A pair of taxa ordered by one comparison, as `if (x < y) ... else ...` does in the source. */
  datatype OrderedPair = OrderedPair(lo: nat, hi: nat)

  function Order(x: nat, y: nat): (p: OrderedPair)
    ensures p.lo <= p.hi
    ensures forall z :: Once(z, p.lo) + Once(z, p.hi) == Once(z, x) + Once(z, y)
  {
    if x < y then OrderedPair(x, y) else OrderedPair(y, x)
  }

  /**
    The four taxa from largest to smallest, computed as the source does: order
    each pair, then merge the two ordered pairs with three comparisons.
  */
  function CanonicalOrder(a: nat, b: nat, c: nat, d: nat): (t: Quartet)
    ensures t.a >= t.b >= t.c >= t.d
    ensures t.Taxa() == multiset{a, b, c, d}
  {
    var p1 := Order(a, b);                // (low1, high1)
    var p2 := Order(c, d);                // (low2, high2)
    var low := Order(p1.lo, p2.lo);       // (td, middle1)
    var high := Order(p2.hi, p1.hi);      // (middle2, ta): high1 > high2 keeps high1 on top
    var middle := Order(low.hi, high.lo); // (tc, tb)
    var t := Quartet(high.hi, middle.hi, middle.lo, low.lo);
    assert forall x :: Occurs(x, t) == Occurs(x, Quartet(a, b, c, d));
    SameOccurrences(t, Quartet(a, b, c, d));
    t
  }

  predicate Descending(t: Quartet) {
    t.a >= t.b >= t.c >= t.d
  }

  /** A descending quartet is determined by its taxon multiset. */
  lemma DescendingUnique(s: Quartet, t: Quartet)
    requires Descending(s) && Descending(t)
    requires s.Taxa() == t.Taxa()
    ensures s == t
  {
    OccursIsMultiplicity(s.a, s); OccursIsMultiplicity(s.a, t);
    OccursIsMultiplicity(t.a, s); OccursIsMultiplicity(t.a, t);
    assert s.a == t.a;
    OccursIsMultiplicity(s.d, s); OccursIsMultiplicity(s.d, t);
    OccursIsMultiplicity(t.d, s); OccursIsMultiplicity(t.d, t);
    assert s.d == t.d;
    OccursIsMultiplicity(s.b, s); OccursIsMultiplicity(s.b, t);
    OccursIsMultiplicity(t.b, s); OccursIsMultiplicity(t.b, t);
    assert s.b == t.b;
    OccursIsMultiplicity(s.c, s); OccursIsMultiplicity(s.c, t);
  }

  /** `x << k` on a 64-bit value, for the multiplier m = 2^k. */
  function ShiftLeft(x: nat, m: nat): nat {
    (x * m) % Word
  }

  /** Packs four taxa and a tag: each taxon shifted into its slot, all summed in 64-bit arithmetic. */
  function BitShiftingIndex(a: nat, b: nat, c: nat, d: nat, tupleIndex: nat): (key: nat)
    ensures key < Word
  {
    // uint64_t addition wraps at every step; wrapping once at the end gives the same value
    (ShiftLeft(a, Slot1Scale) + ShiftLeft(b, Slot2Scale) + ShiftLeft(c, Slot3Scale) + ShiftLeft(d, Slot4Scale)
     + tupleIndex) % Word
  }

  /** The key of a quartet: its taxa in canonical order plus the tag of its presentation order. */
  function GetIndex(a: nat, b: nat, c: nat, d: nat): (key: nat)
    ensures key < Word
  {
    var t := CanonicalOrder(a, b, c, d);
    BitShiftingIndex(t.a, t.b, t.c, t.d, TupleIndex(a, b, c, d))
  }

  lemma MulAtLeast(k: nat, m: nat)
    requires k >= 1
    ensures k * m >= m
  {
  }

  lemma MulMonotone(x: nat, y: nat, m: nat)
    requires x <= y
    ensures x * m <= y * m
  {
  }

  lemma WordModSmall(p: nat)
    requires p < Word
    ensures p % Word == p
  {
  }

  /** A 15-bit value shifted into a slot that fits in 64 bits loses nothing. */
  lemma ShiftExact(x: nat, m: nat)
    requires x < SlotSize && m * SlotSize <= Word
    ensures ShiftLeft(x, m) == x * m
    ensures x * m <= m * SlotSize - m
  {
    MulMonotone(x, SlotSize - 1, m);
    assert (SlotSize - 1) * m == m * SlotSize - m;
    WordModSmall(x * m);
  }

  /**
    For taxa below 2^15 and a tag below 16 nothing is shifted out and no sum
    wraps: the key is the exact sum of the shifted slots and the tag.
  */
  lemma BitShiftingIndexExact(a: nat, b: nat, c: nat, d: nat, tupleIndex: nat)
    requires a < SlotSize && b < SlotSize && c < SlotSize && d < SlotSize && tupleIndex < Slot4Scale
    ensures BitShiftingIndex(a, b, c, d, tupleIndex)
            == a * Slot1Scale + b * Slot2Scale + c * Slot3Scale + d * Slot4Scale + tupleIndex
  {
    ShiftExact(a, Slot1Scale);
    ShiftExact(b, Slot2Scale);
    ShiftExact(c, Slot3Scale);
    ShiftExact(d, Slot4Scale);
    var sum := a * Slot1Scale + b * Slot2Scale + c * Slot3Scale + d * Slot4Scale + tupleIndex;
    assert sum < Word;
  }

  /** Euclidean division undoes `x * m + r` for a remainder r below m. */
  lemma DivModSplit(x: nat, r: nat, m: nat)
    requires r < m
    ensures (x * m + r) / m == x
    ensures (x * m + r) % m == r
  {
    var n := x * m + r;
    var q, s := n / m, n % m;
    assert n == q * m + s;
    if q < x {
      MulAtLeast(x - q, m);
      assert false;
    } else if q > x {
      MulAtLeast(q - x, m);
      assert false;
    }
  }

  /** The 15-bit field at bits [k, k+15) of a key, for the multiplier m = 2^k. */
  function Slot(key: nat, m: nat): nat
    requires m > 0
  {
    (key / m) % SlotSize
  }

  /** Unpacks the four 15-bit slots of a key, most significant first. */
  function GetLeaves(key: nat): (leaves: seq<nat>)
    requires key < Word
    ensures |leaves| == 4
    ensures forall i :: 0 <= i < 4 ==> leaves[i] < SlotSize
  {
    [Slot(key, Slot1Scale), Slot(key, Slot2Scale), Slot(key, Slot3Scale), Slot(key, Slot4Scale)]
  }

  /**
    Reference description of the tag for distinct taxa, in terms of the ranges
    the two pairs span: separated ranges give 0, nested ranges 2, and crossing
    ranges (exactly one of c, d strictly between a and b) give 1.
  */
  lemma TupleIndexByRanges(a: nat, b: nat, c: nat, d: nat)
    requires Distinct(a, b, c, d)
    ensures TupleIndex(a, b, c, d) == 0 <==> Max(a, b) < Min(c, d) || Max(c, d) < Min(a, b)
    ensures TupleIndex(a, b, c, d) == 2 <==>
              (Min(c, d) < Min(a, b) && Max(a, b) < Max(c, d)) || (Min(a, b) < Min(c, d) && Max(c, d) < Max(a, b))
    ensures TupleIndex(a, b, c, d) == 1 <==>
              ((Min(a, b) < c < Max(a, b)) != (Min(a, b) < d < Max(a, b)))
  {
  }

  /** The tag depends only on the pairing {{a,b},{c,d}}, not on the order inside or between the pairs. */
  lemma TupleIndexPairingInvariant(a: nat, b: nat, c: nat, d: nat)
    requires Distinct(a, b, c, d)
    ensures TupleIndex(b, a, c, d) == TupleIndex(a, b, c, d)
    ensures TupleIndex(a, b, d, c) == TupleIndex(a, b, c, d)
    ensures TupleIndex(c, d, a, b) == TupleIndex(a, b, c, d)
  {
  }

  /**
    The three pairings ab|cd, ac|bd and ad|bc of four distinct taxa get three
    different tags, so the three tags index the count triple as a permutation.
  */
  lemma PairingTagsArePermutation(a: nat, b: nat, c: nat, d: nat)
    requires Distinct(a, b, c, d)
    ensures TupleIndex(a, b, c, d) != TupleIndex(a, c, b, d)
    ensures TupleIndex(a, b, c, d) != TupleIndex(a, d, b, c)
    ensures TupleIndex(a, c, b, d) != TupleIndex(a, d, b, c)
    ensures {TupleIndex(a, b, c, d), TupleIndex(a, c, b, d), TupleIndex(a, d, b, c)} == {0, 1, 2}
  {
  }

  /**
    The canonical order is a function of the taxon multiset alone: every
    reordering of the arguments gives the same canonical order.
  */
  lemma CanonicalOrderPermutationInvariant(a: nat, b: nat, c: nat, d: nat, e: nat, f: nat, g: nat, h: nat)
    requires multiset{a, b, c, d} == multiset{e, f, g, h}
    ensures CanonicalOrder(a, b, c, d) == CanonicalOrder(e, f, g, h)
  {
    DescendingUnique(CanonicalOrder(a, b, c, d), CanonicalOrder(e, f, g, h));
  }

  /** The key of a quartet survives swapping inside either pair and swapping the pairs. */
  lemma GetIndexPairingInvariant(a: nat, b: nat, c: nat, d: nat)
    requires Distinct(a, b, c, d)
    ensures GetIndex(b, a, c, d) == GetIndex(a, b, c, d)
    ensures GetIndex(a, b, d, c) == GetIndex(a, b, c, d)
    ensures GetIndex(c, d, a, b) == GetIndex(a, b, c, d)
  {
    TupleIndexPairingInvariant(a, b, c, d);
    assert multiset{b, a, c, d} == multiset{a, b, c, d};
    assert multiset{a, b, d, c} == multiset{a, b, c, d};
    assert multiset{c, d, a, b} == multiset{a, b, c, d};
    CanonicalOrderPermutationInvariant(b, a, c, d, a, b, c, d);
    CanonicalOrderPermutationInvariant(a, b, d, c, a, b, c, d);
    CanonicalOrderPermutationInvariant(c, d, a, b, a, b, c, d);
  }

  /** A reordering that changes the pairing changes the tag and hence the key. */
  lemma GetIndexSeparatesPairings(a: nat, b: nat, c: nat, d: nat)
    requires Distinct(a, b, c, d)
    ensures GetIndex(a, c, b, d) != GetIndex(a, b, c, d)
    ensures GetIndex(a, d, b, c) != GetIndex(a, b, c, d)
    ensures GetIndex(a, c, b, d) != GetIndex(a, d, b, c)
  {
    PairingTagsArePermutation(a, b, c, d);
    CanonicalOrderPermutationInvariant(a, c, b, d, a, b, c, d);
    CanonicalOrderPermutationInvariant(a, d, b, c, a, b, c, d);
    TagChangesKey(CanonicalOrder(a, b, c, d), TupleIndex(a, b, c, d), TupleIndex(a, c, b, d));
    TagChangesKey(CanonicalOrder(a, b, c, d), TupleIndex(a, b, c, d), TupleIndex(a, d, b, c));
    TagChangesKey(CanonicalOrder(a, b, c, d), TupleIndex(a, c, b, d), TupleIndex(a, d, b, c));
  }

  /** Same slots, different tags below 3: the keys differ even after 64-bit wrap-around. */
  lemma TagChangesKey(t: Quartet, tag1: nat, tag2: nat)
    requires tag1 < 3 && tag2 < 3 && tag1 != tag2
    ensures BitShiftingIndex(t.a, t.b, t.c, t.d, tag1) != BitShiftingIndex(t.a, t.b, t.c, t.d, tag2)
  {
  }

  /** Unpacking a key built from four slot values and a tag gives the slot values back. */
  lemma SlotsOfPackedKey(ta: nat, tb: nat, tc: nat, td: nat, tag: nat)
    requires ta < SlotSize && tb < SlotSize && tc < SlotSize && td < SlotSize && tag < Slot4Scale
    ensures var key := ta * Slot1Scale + tb * Slot2Scale + tc * Slot3Scale + td * Slot4Scale + tag;
            key < Word && GetLeaves(key) == [ta, tb, tc, td] && key % 16 == tag
  {
    var key := ta * Slot1Scale + tb * Slot2Scale + tc * Slot3Scale + td * Slot4Scale + tag;
    var h1 := ta;
    var h2 := h1 * SlotSize + tb;
    var h3 := h2 * SlotSize + tc;
    var h4 := h3 * SlotSize + td;
    assert key == h1 * Slot1Scale + (tb * Slot2Scale + tc * Slot3Scale + td * Slot4Scale + tag);
    assert key == h2 * Slot2Scale + (tc * Slot3Scale + td * Slot4Scale + tag);
    assert key == h3 * Slot3Scale + (td * Slot4Scale + tag);
    assert key == h4 * Slot4Scale + tag;
    DivModSplit(h1, tb * Slot2Scale + tc * Slot3Scale + td * Slot4Scale + tag, Slot1Scale);
    DivModSplit(h2, tc * Slot3Scale + td * Slot4Scale + tag, Slot2Scale);
    DivModSplit(h3, td * Slot4Scale + tag, Slot3Scale);
    DivModSplit(h4, tag, Slot4Scale);
    DivModSplit(0, h1, SlotSize);
    DivModSplit(h1, tb, SlotSize);
    DivModSplit(h2, tc, SlotSize);
    DivModSplit(h3, td, SlotSize);
  }

  /** Sorting keeps every taxon below a bound the four taxa are below. */
  lemma CanonicalOrderBelow(a: nat, b: nat, c: nat, d: nat, n: nat)
    requires a < n && b < n && c < n && d < n
    ensures var t := CanonicalOrder(a, b, c, d);
            t.a < n && t.b < n && t.c < n && t.d < n
  {
    var t := CanonicalOrder(a, b, c, d);
    assert t.a in t.Taxa();
    assert t.a in multiset{a, b, c, d};
  }

  /**
    Round trip: for taxa below 2^15 the key unpacks to the taxa in descending
    order, and its low four bits are the tag.
  */
  lemma GetLeavesOfGetIndex(a: nat, b: nat, c: nat, d: nat)
    requires a < SlotSize && b < SlotSize && c < SlotSize && d < SlotSize
    ensures var t := CanonicalOrder(a, b, c, d);
            GetLeaves(GetIndex(a, b, c, d)) == [t.a, t.b, t.c, t.d]
    ensures GetIndex(a, b, c, d) % 16 == TupleIndex(a, b, c, d)
  {
    var t := CanonicalOrder(a, b, c, d);
    CanonicalOrderBelow(a, b, c, d, SlotSize);
    BitShiftingIndexExact(t.a, t.b, t.c, t.d, TupleIndex(a, b, c, d));
    SlotsOfPackedKey(t.a, t.b, t.c, t.d, TupleIndex(a, b, c, d));
  }

  /**
    The key is collision-free on taxa below 2^15: equal keys mean the same taxon
    multiset and the same tag.
  */
  lemma GetIndexInjective(a: nat, b: nat, c: nat, d: nat, e: nat, f: nat, g: nat, h: nat)
    requires a < SlotSize && b < SlotSize && c < SlotSize && d < SlotSize
    requires e < SlotSize && f < SlotSize && g < SlotSize && h < SlotSize
    requires GetIndex(a, b, c, d) == GetIndex(e, f, g, h)
    ensures multiset{a, b, c, d} == multiset{e, f, g, h}
    ensures TupleIndex(a, b, c, d) == TupleIndex(e, f, g, h)
  {
    GetLeavesOfGetIndex(a, b, c, d);
    GetLeavesOfGetIndex(e, f, g, h);
    var s, t := CanonicalOrder(a, b, c, d), CanonicalOrder(e, f, g, h);
    assert s.a == t.a && s.b == t.b && s.c == t.c && s.d == t.d;
  }
}
