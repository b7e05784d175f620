/** Range partitioning into a power of two of buckets. */
module RangePartition {
  import opened Arithmetic

  function Pow2(e: nat): (r: nat)
    ensures r >= 1
  {
    if e == 0 then 1 else 2 * Pow2(e - 1)
  }

  const BITS := 32

  lemma {:induction false} Pow2Grows(a: nat, b: nat)
    requires a <= b
    ensures Pow2(a) <= Pow2(b)
    decreases b
  {
    if a < b {
      Pow2Grows(a, b - 1);
    }
  }

  /** e is the least exponent with two to the e at least k. */
  predicate LeastExponent(k: nat, e: nat) {
    k <= Pow2(e) && (e > 0 ==> Pow2(e - 1) < k)
  }

  /** No smaller exponent does. */
  lemma LeastIsLeast(k: nat, e: nat, d: nat)
    requires LeastExponent(k, e) && k <= Pow2(d)
    ensures e <= d
  {
    if d < e {
      Pow2Grows(d, e - 1);
    }
  }

  /** --k on 32 bits. */
  function Decremented(k: nat): nat { if k == 0 then Pow2(BITS) - 1 else k - 1 }

  /** Looks for the highest bit of k - 1, from the top.  Shifting the sign bit right
      drags it along, so the i-th mask has the top i + 1 bits. */
  method GetLogarithm(k: nat) returns (e: nat)
    requires k < Pow2(BITS)
    ensures k > 0 ==> LeastExponent(k, e)
    ensures k == 0 ==> e == BITS
  {
    var d := Decremented(k);
    assert d < Pow2(BITS - 0);
    hide Pow2, LeastExponent, Decremented;
    for i := 0 to BITS
      invariant d < Pow2(BITS - i) && d == Decremented(k)
      invariant k == 0 ==> i == 0
    {
      TopBits(d, BITS - i - 1);
      HighestBit(k, d, BITS - i - 1);
      if d / Pow2(BITS - i - 1) != 0 {
        return BITS - i;
      }
    }
    NoBit(k, d);
    return 0;
  }

  lemma HighestBit(k: nat, d: nat, e: nat)
    requires k < Pow2(BITS) && e < BITS && d == Decremented(k) && d < Pow2(e + 1)
    ensures k > 0 && d >= Pow2(e) ==> LeastExponent(k, e + 1)
    ensures k == 0 && e == BITS - 1 ==> d >= Pow2(e)
  {
    TopHalf(e);
    hide Pow2;
  }

  lemma NoBit(k: nat, d: nat)
    requires d == Decremented(k) && d < Pow2(0)
    ensures k > 0 ==> LeastExponent(k, 0)
  {
  }

  lemma TopHalf(e: nat)
    ensures Pow2(e + 1) == 2 * Pow2(e) && Pow2(e) <= Pow2(e + 1) - 1
  {
  }

  lemma TopBits(d: nat, e: nat)
    ensures d / Pow2(e) != 0 <==> d >= Pow2(e)
  {
    hide Pow2;
    DivIs(d, Pow2(e), 1);
  }

  /** The constructor's exponent. */
  method Exponent(k: nat) returns (e: nat)
    requires k < Pow2(BITS)
    ensures k >= 2 ==> LeastExponent(k, e)
    ensures k <= 1 ==> e == 1
    ensures LeastExponent(k, e) && k > 0 <==> k >= 2
  {
    if k == 0 || k == 1 {
      e := 1;
      assert Pow2(0) == 1;
    } else {
      e := GetLogarithm(k);
    }
  }

  /** One bucket is asked for, and there are two. */
  lemma OneBucketBecomesTwo()
    ensures LeastExponent(1, 0) && !LeastExponent(1, 1)
  {
    assert Pow2(0) == 1;
  }

  // ----- the mapping -----

  /** The bucket of the value min + v, out of parts, for a range of this width. */
  function BucketOf(v: nat, parts: nat, width: nat): nat
    requires width > 0
  {
    v * parts / width
  }

  /** The first value of bucket j. */
  function Low(j: nat, parts: nat, width: nat): nat
    requires parts > 0
  {
    CeilDiv(j * width, parts)
  }

  lemma DivIs(a: nat, b: nat, q: nat)
    requires b > 0
    ensures a / b >= q <==> a >= q * b
  {
    var d := a / b;
    assert d * b <= a < d * b + b;
    if d >= q {
      MulLe(q, d, b);
    } else {
      MulLe(d + 1, q, b);
      assert (d + 1) * b == d * b + b;
    }
  }

  lemma CeilIs(a: nat, b: nat, v: nat)
    requires b > 0
    ensures CeilDiv(a, b) <= v <==> a <= v * b
  {
    var r := CeilDiv(a, b);
    CeilDivBounds(a, b);
    if r <= v {
      MulLe(r, v, b);
    } else {
      MulLe(v, r - 1, b);
    }
  }

  /** Bucket j is the run of values from its first to the next bucket's first. */
  lemma BucketIsRun(v: nat, j: nat, parts: nat, width: nat)
    requires parts > 0 && width > 0
    ensures BucketOf(v, parts, width) == j <==> Low(j, parts, width) <= v < Low(j + 1, parts, width)
  {
    DivIs(v * parts, width, j);
    DivIs(v * parts, width, j + 1);
    CeilIs(j * width, parts, v);
    CeilIs((j + 1) * width, parts, v);
  }

  /** Larger values do not go to smaller buckets, and all buckets are below parts. */
  lemma BucketsMonotone(v: nat, w: nat, parts: nat, width: nat)
    requires parts > 0 && v <= w < width
    ensures BucketOf(v, parts, width) <= BucketOf(w, parts, width) < parts
  {
    var b := BucketOf(v, parts, width);
    DivIs(v * parts, width, b);
    MulLe(v, w, parts);
    DivIs(w * parts, width, b);
    DivIs(w * parts, width, parts);
    MulLt(w, width, parts);
    assert parts * width == width * parts;
  }

  lemma MulLt(x: nat, y: nat, b: nat)
    requires x < y && b > 0
    ensures x * b < y * b
  {
    MulLe(x + 1, y, b);
    assert (x + 1) * b == x * b + b;
  }

  /** Every bucket has the floor or the ceiling of an equal share. */
  lemma BucketsEven(j: nat, parts: nat, width: nat)
    requires parts > 0 && width > 0
    ensures var size := Low(j + 1, parts, width) - Low(j, parts, width);
            size == width / parts || size == CeilDiv(width, parts)
  {
    var a, b := Low(j, parts, width), Low(j + 1, parts, width);
    var f, c := width / parts, CeilDiv(width, parts);
    CeilDivBounds(j * width, parts);
    CeilDivBounds((j + 1) * width, parts);
    assert (j + 1) * width == j * width + width;
    CeilIs(width, parts, c);
    DivIs(width, parts, f);
    DivIs(width, parts, f + 1);
    // b reaches at most a + c and at least a + f.
    assert (a + c) * parts == a * parts + c * parts;
    CeilIs((j + 1) * width, parts, a + c);
    EvenLow(j * width, width, parts, a, b, f);
    CeilWithin(width, parts);
  }

  /** The buckets cover the range: the first starts at its first value, and behind the
      last one is its end. */
  lemma BucketsCover(parts: nat, width: nat)
    requires parts > 0 && width > 0
    ensures Low(0, parts, width) == 0 && Low(parts, parts, width) == width
  {
    CeilDivUnique(0, parts, 0);
    assert parts * width == width * parts;
    assert (width - 1) * parts == width * parts - parts;
    CeilDivUnique(parts * width, parts, width);
  }

  /** How many of the first n values go to bucket j. */
  function InBucket(j: nat, parts: nat, width: nat, n: nat): nat
    requires width > 0
  {
    if n == 0 then 0 else InBucket(j, parts, width, n - 1) + if BucketOf(n - 1, parts, width) == j then 1 else 0
  }

  lemma {:induction false} InBucketIs(j: nat, parts: nat, width: nat, n: nat)
    requires parts > 0 && width > 0
    ensures var a, b := Low(j, parts, width), Low(j + 1, parts, width);
            InBucket(j, parts, width, n) == if n <= a then 0 else if n <= b then n - a else if a <= b then b - a else 0
  {
    if n > 0 {
      InBucketIs(j, parts, width, n - 1);
      BucketIsRun(n - 1, j, parts, width);
    }
  }

  /** Of all values of the range, each bucket gets the floor or the ceiling of an equal
      share. */
  lemma BucketSizes(j: nat, parts: nat, width: nat)
    requires j < parts && width > 0
    ensures InBucket(j, parts, width, width) == width / parts || InBucket(j, parts, width, width) == CeilDiv(width, parts)
  {
    BucketsEven(j, parts, width);
    BucketsCover(parts, width);
    LowGrows(j + 1, parts, parts, width);
    LowGrows(j, j + 1, parts, width);
    InBucketIs(j, parts, width, width);
  }

  lemma LowGrows(i: nat, j: nat, parts: nat, width: nat)
    requires parts > 0 && i <= j
    ensures Low(i, parts, width) <= Low(j, parts, width)
  {
    CeilDivBounds(j * width, parts);
    MulLe(i, j, width);
    CeilIs(i * width, parts, Low(j, parts, width));
  }

  lemma EvenLow(x: nat, width: nat, parts: nat, a: nat, b: nat, f: nat)
    requires parts > 0 && a == CeilDiv(x, parts) && b == CeilDiv(x + width, parts) && f * parts <= width
    ensures a + f <= b
  {
    CeilDivBounds(x + width, parts);
    assert x + width <= b * parts;
    if b >= f {
      assert (b - f) * parts == b * parts - f * parts;
      CeilIs(x, parts, b - f);
    } else {
      MulLt(b, f, parts);
      assert false;
    }
  }

  lemma CeilWithin(width: nat, parts: nat)
    requires parts > 0
    ensures CeilDiv(width, parts) <= width / parts + 1
  {
    var f := width / parts;
    DivIs(width, parts, f + 1);
    CeilIs(width, parts, f + 1);
  }

  /** UniformRangePartitionFunction::get_partition_value: the shift stays within 64
      bits for up to two to the thirtieth buckets over a range of int width. */
  method GetPartitionValue(value: int, min: int, max: int, e: nat) returns (r: nat)
    requires min <= value <= max && max - min + 1 < 0x8000_0000 && e <= 30
    ensures r == BucketOf(value - min, Pow2(e), max - min + 1) && r < Pow2(e)
    ensures (value - min) * Pow2(e) < 0x1_0000_0000_0000_0000
  {
    ThirtyBits(e);
    hide Pow2, BucketOf;
    r := Scaled(value - min, Pow2(e), max - min + 1);
  }

  method Scaled(v: nat, parts: nat, width: nat) returns (r: nat)
    requires v < width < 0x8000_0000 && 0 < parts <= 0x4000_0000
    ensures r == BucketOf(v, parts, width) && r < parts && v * parts < 0x1_0000_0000_0000_0000
  {
    ShiftFits(v, parts);
    BucketsMonotone(v, v, parts, width);
    r := v * parts / width;
  }

  lemma ThirtyBits(e: nat)
    requires e <= 30
    ensures Pow2(e) <= 0x4000_0000
  {
    Pow2Grows(e, 30);
    assert Pow2(5) == 0x20;
    assert Pow2(10) == 0x400;
    assert Pow2(15) == 0x8000;
    Pow2Adds(15, 15);
  }

  lemma {:induction false} Pow2Adds(a: nat, b: nat)
    ensures Pow2(a + b) == Pow2(a) * Pow2(b)
    decreases b
  {
    if b > 0 {
      Pow2Adds(a, b - 1);
      assert 2 * (Pow2(a) * Pow2(b - 1)) == Pow2(a) * (2 * Pow2(b - 1));
    }
  }

  lemma ShiftFits(v: nat, parts: nat)
    requires v < 0x8000_0000 && parts <= 0x4000_0000
    ensures v * parts < 0x1_0000_0000_0000_0000
  {
    MulLe(v, 0x8000_0000, parts);
  }
}
