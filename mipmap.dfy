/** The mip level count of common/genmipmap.js: a texture whose largest side is `m`
    gets one level for the full image plus one for every halving down to a single
    texel, 1 + floor(log2 m). The sizes are modelled as integers; the JavaScript
    expression gives 0 when there is no size at all or the largest is not positive. */
module Mipmap {

  /** 2^k. */
  function Pow2(k: nat): (p: nat)
    ensures p >= 1
  {
    if k == 0 then 1 else 2 * Pow2(k - 1)
  }

  /** Powers of two grow strictly with the exponent. */
  lemma {:induction false} Pow2Increasing(a: nat, b: nat)
    requires a < b
    ensures Pow2(a) < Pow2(b)
  {
    if b != a + 1 {
      Pow2Increasing(a, b - 1);
    }
  }

  /** floor(log2 n): the exponent of the largest power of two not above n. */
  function FloorLog2(n: nat): (r: nat)
    requires n >= 1
    ensures Pow2(r) <= n < Pow2(r + 1)
    decreases n
  {
    if n == 1 then 0 else 1 + FloorLog2(n / 2)
  }

  /** A smaller power of two has a smaller exponent. */
  lemma Pow2Order(a: nat, c: nat)
    requires Pow2(a) < Pow2(c)
    ensures a < c
  {
    if c < a {
      Pow2Increasing(c, a);
    }
  }

  /** The bracket Pow2(r) <= n < Pow2(r + 1) fixes r: floor(log2 n) is the only exponent in it. */
  lemma FloorLog2Unique(n: nat, r: nat)
    requires n >= 1
    ensures FloorLog2(n) == r <==> Pow2(r) <= n < Pow2(r + 1)
  {
    var f := FloorLog2(n);
    if Pow2(r) <= n < Pow2(r + 1) {
      Pow2Order(r, f + 1);
      Pow2Order(f, r + 1);
    }
  }

  /** A larger size never has a smaller logarithm. */
  lemma FloorLog2Monotone(m: nat, n: nat)
    requires 1 <= m <= n
    ensures FloorLog2(m) <= FloorLog2(n)
  {
    Pow2Order(FloorLog2(m), FloorLog2(n) + 1);
  }

  /** Math.max over a non-empty argument list. */
  function Largest(sizes: seq<int>): (m: int)
    requires |sizes| > 0
    ensures m in sizes
    ensures forall x :: x in sizes ==> x <= m
  {
    if |sizes| == 1 then sizes[0]
    else
      var rest, last := Largest(sizes[..|sizes| - 1]), sizes[|sizes| - 1];
      assert sizes == sizes[..|sizes| - 1] + [last];
      if rest < last then last else rest
  }

  /** numMipLevels(...sizes). With no argument Math.max gives -Infinity, whose log2 is
      NaN; with a largest size of 0 or less log2 gives -Infinity or NaN; `| 0` turns
      both into 0. Otherwise `| 0` truncates 1 + log2(m) to 1 + floor(log2 m). */
  function NumMipLevels(sizes: seq<int>): (levels: nat)
    ensures levels >= 1 <==> exists x :: x in sizes && x >= 1
    ensures forall x :: x in sizes && x >= 1 ==> x < Pow2(levels)
    ensures levels >= 1 ==> exists x :: x in sizes && x >= Pow2(levels - 1)
  {
    if |sizes| == 0 then 0
    else
      var m := Largest(sizes);
      if m <= 0 then 0 else 1 + FloorLog2(m)
  }

  /** Only the largest size matters: the count is that of the largest size alone. */
  lemma MipLevelsOfLargest(sizes: seq<int>)
    requires |sizes| > 0
    ensures NumMipLevels(sizes) == NumMipLevels([Largest(sizes)])
  {
    assert Largest([Largest(sizes)]) == Largest(sizes);
  }

  /** Two argument lists with the same sizes, in whatever order, give the same count. */
  lemma MipLevelsOrderFree(sizes: seq<int>, others: seq<int>)
    requires multiset(sizes) == multiset(others)
    ensures NumMipLevels(sizes) == NumMipLevels(others)
  {
    if |sizes| > 0 {
      assert |others| == |multiset(others)| == |multiset(sizes)| == |sizes|;
      var m, n := Largest(sizes), Largest(others);
      assert m in multiset(others) && n in multiset(sizes);
      assert m in others && n in sizes;
      assert m == n;
    } else {
      assert |others| == |multiset(others)| == 0;
    }
  }

  /** A largest size of 2^k gives k + 1 levels: 2^k, 2^(k-1), ..., 1. */
  lemma MipLevelsOfPowerOfTwo(sizes: seq<int>, k: nat)
    requires |sizes| > 0 && Largest(sizes) == Pow2(k)
    ensures NumMipLevels(sizes) == k + 1
  {
    FloorLog2Unique(Pow2(k), k);
  }

  /** A largest size of 1 gives a single level. */
  lemma MipLevelsOfOne(sizes: seq<int>)
    requires |sizes| > 0 && Largest(sizes) == 1
    ensures NumMipLevels(sizes) == 1
  {
    MipLevelsOfPowerOfTwo(sizes, 0);
  }

  /** The count is non-decreasing in the largest size, and at least 1 once it is positive. */
  lemma MipLevelsMonotone(sizes: seq<int>, others: seq<int>)
    requires |sizes| > 0 && |others| > 0 && Largest(sizes) <= Largest(others)
    ensures NumMipLevels(sizes) <= NumMipLevels(others)
    ensures Largest(sizes) >= 1 ==> NumMipLevels(sizes) >= 1
  {
    if Largest(sizes) >= 1 {
      FloorLog2Monotone(Largest(sizes), Largest(others));
    }
  }

  /** A 64 x 64 texture gets 7 levels: 64, 32, 16, 8, 4, 2, 1. */
  lemma MipLevelsOf64()
    ensures NumMipLevels([64, 64]) == 7
  {
    assert Largest([64, 64]) == 64 == Pow2(6);
    MipLevelsOfPowerOfTwo([64, 64], 6);
  }
}
