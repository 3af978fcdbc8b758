/**
  The memory estimate made before the evaluation trees are read: the size of
  the compact lookup table (three counts for every set of four taxa) is
  compared with the memory the machine has, and the run stops when it does
  not fit. All products are taken in 64-bit `size_t` arithmetic.
*/
module MemoryBudget {
  import opened Wrappers
  import opened QuartetCodec

  /** sizeof(size_t), the bytes of the table's header word. */
  const SizeTBytes: nat := 8

  /** n choose k by Pascal's rule. */
  function Choose(n: nat, k: nat): nat
    decreases n
  {
    if k == 0 then 1
    else if n == 0 then 0
    else Choose(n - 1, k - 1) + Choose(n - 1, k)
  }

  /** x * y reduced to 64 bits. */
  function MulWord(x: int, y: int): (r: nat)
    ensures r < Word
  {
    (x * y) % Word
  }

  /** The two table sizes the source estimates, in bytes. */
  datatype MemoryEstimate = MemoryEstimate(fast: nat, compact: nat)

  /**
    Both estimates for n taxa and counts of `countBytes` bytes, with the
    wrap-around of 64-bit arithmetic: n - 1, n - 2 and n - 3 wrap below zero,
    and every product and the final sum is reduced modulo 2^64.
  */
  function Estimate(n: nat, countBytes: nat): (r: MemoryEstimate)
    requires n < Word
    ensures r.fast < Word && r.compact < Word
  {
    var fast := MulWord(MulWord(MulWord(MulWord(n, n), n), n), countBytes);
    var product := MulWord(MulWord(MulWord(n, n - 1), n - 2), n - 3);
    var compact := (MulWord(MulWord(product / 24, 3), countBytes) + SizeTBytes) % Word;
    MemoryEstimate(fast, compact)
  }

  /**
    The memory check: fails with InsufficientMemory exactly when the compact
    table is larger than the available memory, and otherwise hands back both
    estimates.
  */
  function CheckMemory(n: nat, countBytes: nat, available: nat): (r: Result<MemoryEstimate>)
    requires n < Word
    ensures r.Failure? <==> Estimate(n, countBytes).compact > available
    ensures r.Failure? ==> r.error == InsufficientMemory
    ensures r.Success? ==> r.value == Estimate(n, countBytes) && r.value.compact <= available
  {
    var estimate := Estimate(n, countBytes);
    if estimate.compact > available then Failure(InsufficientMemory) else Success(estimate)
  }

  lemma MulAssociative(a: int, b: int, c: int)
    ensures a * b * c == a * (b * c)
  {
  }

  lemma MulDistributive(p: int, a: int, b: int)
    ensures p * a + p * b == p * (a + b)
  {
  }

  /** The polynomial step of Pascal's rule for k = 3. */
  lemma PascalThree(n: int)
    ensures 3 * ((n - 1) * (n - 2)) + (n - 1) * (n - 2) * (n - 3) == n * (n - 1) * (n - 2)
  {
    var p := (n - 1) * (n - 2);
    MulAssociative(n, n - 1, n - 2);
    MulDistributive(p, 3, n - 3);
    assert 3 * p == p * 3;
    assert p * n == n * p;
  }

  /** The polynomial step of Pascal's rule for k = 4. */
  lemma PascalFour(n: int)
    ensures 4 * ((n - 1) * (n - 2) * (n - 3)) + (n - 1) * (n - 2) * (n - 3) * (n - 4)
            == n * (n - 1) * (n - 2) * (n - 3)
  {
    var p := (n - 1) * (n - 2) * (n - 3);
    MulAssociative(n, n - 1, n - 2);
    MulAssociative(n, (n - 1) * (n - 2), n - 3);
    MulDistributive(p, 4, n - 4);
    assert 4 * p == p * 4;
    assert p * n == n * p;
  }

  lemma {:induction false} ChooseOne(n: nat)
    ensures Choose(n, 1) == n
  {
    if n > 0 {
      ChooseOne(n - 1);
    }
  }

  lemma {:induction false} ChooseTwo(n: nat)
    ensures 2 * Choose(n, 2) == n * (n - 1)
  {
    if n > 0 {
      ChooseTwo(n - 1);
      ChooseOne(n - 1);
    }
  }

  lemma {:induction false} ChooseThree(n: nat)
    ensures 6 * Choose(n, 3) == n * (n - 1) * (n - 2)
  {
    if n > 0 {
      ChooseThree(n - 1);
      ChooseTwo(n - 1);
      PascalThree(n);
    }
  }

  /** n(n-1)(n-2)(n-3)/24 is the number of four-taxon sets. */
  lemma {:induction false} ChooseFour(n: nat)
    ensures 24 * Choose(n, 4) == n * (n - 1) * (n - 2) * (n - 3)
  {
    if n > 0 {
      ChooseFour(n - 1);
      ChooseThree(n - 1);
      PascalFour(n);
    }
  }

  /** Fewer than four taxa give no four-taxon set: the table is its header alone. */
  lemma CompactBelowFourTaxa(n: nat, countBytes: nat)
    requires n < 4
    ensures Estimate(n, countBytes).compact == SizeTBytes
  {
    var p2 := MulWord(n, n - 1);
    var p3 := MulWord(p2, n - 2);
    if n <= 1 {
      assert p2 == 0;
      assert p3 == 0;
    } else if n == 2 {
      assert p3 == 0;
    } else {
      assert p3 == 6;
    }
    assert MulWord(p3, n - 3) == 0;
    CompactFromProduct(n, countBytes, 0);
    assert MulWord(MulWord(0, 3), countBytes) == 0;
  }

  lemma SmallMod(x: int)
    requires 0 <= x < Word
    ensures x % Word == x
  {
  }

  lemma MulLe(x: nat, y: nat, z: nat)
    requires x <= y
    ensures x * z <= y * z
  {
  }

  lemma DivExact(c: nat, p: nat)
    requires 24 * c == p
    ensures p / 24 == c
  {
  }

  /** n(n-1)(n-2)(n-3), computed in 64 bits, is exact when it fits. */
  lemma ProductExact(n: nat)
    requires 4 <= n
    requires n * (n - 1) * (n - 2) * (n - 3) < Word
    ensures MulWord(MulWord(MulWord(n, n - 1), n - 2), n - 3) == n * (n - 1) * (n - 2) * (n - 3)
  {
    var a := n * (n - 1);
    var b := a * (n - 2);
    var p := b * (n - 3);
    MulLe(1, n - 3, b);
    MulLe(1, n - 2, a);
    SmallMod(a);
    SmallMod(b);
    SmallMod(p);
  }

  /** (c * 3) * bytes + 8, computed in 64 bits, is exact when it fits. */
  lemma ScaleExact(c: nat, countBytes: nat)
    requires 1 <= countBytes
    requires c * 3 * countBytes + SizeTBytes < Word
    ensures (MulWord(MulWord(c, 3), countBytes) + SizeTBytes) % Word == c * 3 * countBytes + SizeTBytes
  {
    MulLe(1, countBytes, c * 3);
    SmallMod(c * 3);
    SmallMod(c * 3 * countBytes);
    SmallMod(c * 3 * countBytes + SizeTBytes);
  }

  /** The compact estimate from the 64-bit product n(n-1)(n-2)(n-3). */
  lemma CompactFromProduct(n: nat, countBytes: nat, p: nat)
    requires n < Word
    requires MulWord(MulWord(MulWord(n, n - 1), n - 2), n - 3) == p
    ensures Estimate(n, countBytes).compact == (MulWord(MulWord(p / 24, 3), countBytes) + SizeTBytes) % Word
  {
  }

  /**
    Without 64-bit overflow the compact estimate is three counts for every
    set of four taxa, plus the header.
  */
  lemma CompactCountsFourTaxonSets(n: nat, countBytes: nat)
    requires 4 <= n < Word && 1 <= countBytes
    requires n * (n - 1) * (n - 2) * (n - 3) < Word
    requires Choose(n, 4) * 3 * countBytes + SizeTBytes < Word
    ensures Estimate(n, countBytes).compact == Choose(n, 4) * 3 * countBytes + SizeTBytes
  {
    var p := n * (n - 1) * (n - 2) * (n - 3);
    ChooseFour(n);
    ProductExact(n);
    CompactFromProduct(n, countBytes, p);
    DivExact(Choose(n, 4), p);
    ScaleExact(Choose(n, 4), countBytes);
  }

  /** The check passes on any machine with at least as much memory as one it passes on. */
  lemma CheckMemoryMonotone(n: nat, countBytes: nat, available: nat, more: nat)
    requires n < Word && available <= more
    requires CheckMemory(n, countBytes, available).Success?
    ensures CheckMemory(n, countBytes, more) == CheckMemory(n, countBytes, available)
  {
  }
}
