/**
 * Decoding a downloaded camera frame: the downsampling factor `calculateInSampleSize`
 * of the object-detection screen, in Kotlin's 32-bit `Int` arithmetic.
 */
module FrameDecoding {
  import opened Wrappers
  import opened Graphics

  const TwoTo31: int := 0x8000_0000
  const TwoTo32: int := 0x1_0000_0000

  /** Kotlin's `Int`. */
  type Int32 = x: int | -TwoTo31 <= x < TwoTo31

  /** Two's-complement wrap-around of a mathematical result into an `Int`. */
  function Wrap32(x: int): (r: Int32)
    ensures (r - x) % TwoTo32 == 0
  {
    (x + TwoTo31) % TwoTo32 - TwoTo31
  }

  function Abs(x: int): nat {
    if x < 0 then -x else x
  }

  /** Kotlin's `Int` division, which truncates toward zero: the quotient of the magnitudes, signed. */
  function TDiv(a: int, b: int): (q: int)
    requires b != 0
    ensures a >= 0 && b > 0 ==> q == a / b
    ensures a < 0 && b > 0 ==> q == -((-a) / b)
    ensures a >= 0 && b < 0 ==> q == -(a / (-b))
    ensures a < 0 && b < 0 ==> q == (-a) / (-b)
  {
    if (a < 0) == (b < 0) then Abs(a) / Abs(b) else -(Abs(a) / Abs(b))
  }

  function Pow2(k: nat): (p: int)
    ensures p >= 1
  {
    if k == 0 then 1 else 2 * Pow2(k - 1)
  }

  /** The value of `inSampleSize` after `k` executions of `inSampleSize *= 2`. */
  function Doubled(k: nat): (r: Int32)
    ensures k <= 30 ==> r == Pow2(k)
    ensures k == 31 ==> r == -TwoTo31
  {
    Pow2Bounds(k);
    Wrap32(Pow2(k))
  }

  /** The doubling sequence in 32 bits: 1, 2, ..., 2^30, -2^31, 0. */
  lemma DoubledValues(k: nat)
    requires k <= 32
    ensures k <= 30 ==> Doubled(k) == Pow2(k)
    ensures k == 30 ==> Doubled(k) == 0x4000_0000
    ensures k == 31 ==> Doubled(k) == -TwoTo31
    ensures Doubled(k) == 0 <==> k == 32
    ensures k < 32 ==> Wrap32(Doubled(k) * 2) == Doubled(k + 1)
  {
    Pow2Bounds(k);
    if k < 32 {
      Pow2Bounds(k + 1);
    }
  }

  lemma {:induction false} Pow2Add(a: nat, b: nat)
    ensures Pow2(a + b) == Pow2(a) * Pow2(b)
    decreases b
  {
    if b > 0 { Pow2Add(a, b - 1); }
  }

  lemma Pow2Bounds(k: nat)
    ensures k <= 30 ==> Pow2(k) <= 0x4000_0000
    ensures k == 30 ==> Pow2(k) == 0x4000_0000
    ensures k == 31 ==> Pow2(k) == TwoTo31
    ensures k == 32 ==> Pow2(k) == TwoTo32
  {
    assert Pow2(5) == 32;
    Pow2Add(5, 5);
    Pow2Add(10, 10);
    Pow2Add(20, 10);
    Pow2Add(30, 1);
    Pow2Add(30, 2);
    if k <= 30 { Pow2Monotone(k, 30); }
  }

  /** Halving an `Int` stays within [-2^30, 2^30) and keeps its sign. */
  lemma HalfRange(x: Int32)
    ensures -0x4000_0000 <= TDiv(x, 2) < 0x4000_0000
    ensures x >= 0 ==> TDiv(x, 2) >= 0
  {
  }

  /** The two largest sample sizes reached: 2^30 leaves at most 0, -2^31 leaves exactly 0. */
  lemma DivisionAtTheTop(h: int)
    requires -0x4000_0000 <= h < 0x4000_0000
    ensures TDiv(h, 0x4000_0000) <= 0
    ensures TDiv(h, -TwoTo31) == 0
  {
  }

  lemma DivisionKeepsSign(h: int, s: int)
    requires h >= 0 && s >= 1
    ensures TDiv(h, s) >= 0
  {
    NonNegativeQuotient(Abs(h), Abs(s));
  }

  lemma NonNegativeQuotient(h: int, s: int)
    requires h >= 0 && s >= 1
    ensures h / s >= 0
  {
  }

  /** The loop condition of `calculateInSampleSize` for a (non-zero) sample size. */
  predicate KeepsRequestedSize(halfHeight: int, halfWidth: int, inSampleSize: int, reqWidth: int, reqHeight: int)
    requires inSampleSize != 0
    ensures inSampleSize > 0 && halfHeight >= 0 && halfWidth >= 0 && reqHeight <= 0 && reqWidth <= 0
            ==> KeepsRequestedSize(halfHeight, halfWidth, inSampleSize, reqWidth, reqHeight)
  {
    TDiv(halfHeight, inSampleSize) >= reqHeight && TDiv(halfWidth, inSampleSize) >= reqWidth
  }

  /**
   * The loop condition at the two largest sample sizes: with a positive requested
   * dimension it fails at 2^30; at -2^31 it holds exactly when no requested dimension
   * is positive.
   */
  lemma ConditionAtTheTop(halfHeight: int, halfWidth: int, reqWidth: int, reqHeight: int)
    requires -0x4000_0000 <= halfHeight < 0x4000_0000 && -0x4000_0000 <= halfWidth < 0x4000_0000
    ensures reqHeight > 0 || reqWidth > 0 ==>
              !KeepsRequestedSize(halfHeight, halfWidth, 0x4000_0000, reqWidth, reqHeight)
    ensures (KeepsRequestedSize(halfHeight, halfWidth, -TwoTo31, reqWidth, reqHeight))
              <==> reqHeight <= 0 && reqWidth <= 0
  {
    DivisionAtTheTop(halfHeight);
    DivisionAtTheTop(halfWidth);
  }

  /** With no positive requested dimension, non-negative halves always pass. */
  lemma ConditionWithoutRequest(halfHeight: int, halfWidth: int, inSampleSize: int, reqWidth: int, reqHeight: int)
    requires halfHeight >= 0 && halfWidth >= 0 && inSampleSize >= 1
    requires reqHeight <= 0 && reqWidth <= 0
    ensures KeepsRequestedSize(halfHeight, halfWidth, inSampleSize, reqWidth, reqHeight)
  {
    DivisionKeepsSign(halfHeight, inSampleSize);
    DivisionKeepsSign(halfWidth, inSampleSize);
  }

  /** The outcome of `calculateInSampleSize`: a value, or the `ArithmeticException` of a division by zero. */
  datatype SampleSizeOutcome = SampleSize(inSampleSize: int) | DivisionByZero

  /**
   * The `while` loop of `calculateInSampleSize` from its `k`-th test on: the division in
   * the test throws once the doubling has wrapped to 0.
   */
  function DoublingFrom(halfHeight: int, halfWidth: int, reqWidth: int, reqHeight: int, k: nat): (r: SampleSizeOutcome)
    requires k <= 32
    ensures r.SampleSize? ==> -TwoTo31 <= r.inSampleSize < TwoTo31 && r.inSampleSize != 0
    ensures r.SampleSize? ==> !KeepsRequestedSize(halfHeight, halfWidth, r.inSampleSize, reqWidth, reqHeight)
    decreases 32 - k
  {
    DoubledValues(k);
    if Doubled(k) == 0 then DivisionByZero
    else if !KeepsRequestedSize(halfHeight, halfWidth, Doubled(k), reqWidth, reqHeight) then SampleSize(Doubled(k))
    else DoublingFrom(halfHeight, halfWidth, reqWidth, reqHeight, k + 1)
  }

  /** `calculateInSampleSize` on the raw bounds `outHeight` and `outWidth`, in 32 bits. */
  function SampleSizeFor(outHeight: Int32, outWidth: Int32, reqWidth: Int32, reqHeight: Int32): (r: SampleSizeOutcome)
    ensures outHeight <= reqHeight && outWidth <= reqWidth ==> r == SampleSize(1)
    ensures r.SampleSize? ==> -TwoTo31 <= r.inSampleSize < TwoTo31 && r.inSampleSize != 0
    ensures r.SampleSize? && (outHeight > reqHeight || outWidth > reqWidth) ==>
              !KeepsRequestedSize(TDiv(outHeight, 2), TDiv(outWidth, 2), r.inSampleSize, reqWidth, reqHeight)
  {
    if outHeight > reqHeight || outWidth > reqWidth then
      DoublingFrom(TDiv(outHeight, 2), TDiv(outWidth, 2), reqWidth, reqHeight, 0)
    else SampleSize(1)
  }

  /**
   * `calculateInSampleSize(options, reqWidth, reqHeight)` with the raw `outHeight` and
   * `outWidth` of the decoded bounds, in Kotlin's 32-bit arithmetic. When neither
   * requested dimension is positive, the doubling wraps to 0 after 32 steps and the
   * next division throws; `downloadImageFromUrl` catches it and yields no frame.
   */
  method CalculateInSampleSize(outHeight: Int32, outWidth: Int32, reqWidth: Int32, reqHeight: Int32)
    returns (r: SampleSizeOutcome)
    ensures r == SampleSizeFor(outHeight, outWidth, reqWidth, reqHeight)
  {
    var inSampleSize: Int32 := 1;
    if outHeight > reqHeight || outWidth > reqWidth {
      var halfHeight: Int32 := TDiv(outHeight, 2);
      var halfWidth: Int32 := TDiv(outWidth, 2);
      ghost var k: nat := 0;
      while true
        invariant k <= 32 && inSampleSize == Doubled(k)
        invariant DoublingFrom(halfHeight, halfWidth, reqWidth, reqHeight, k)
                  == DoublingFrom(halfHeight, halfWidth, reqWidth, reqHeight, 0)
        decreases 32 - k
      {
        DoubledValues(k);
        if inSampleSize == 0 {
          // the division in the loop condition throws
          return DivisionByZero;
        }
        if !KeepsRequestedSize(halfHeight, halfWidth, inSampleSize, reqWidth, reqHeight) {
          break;
        }
        inSampleSize := Wrap32(inSampleSize * 2);
        k := k + 1;
      }
    }
    return SampleSize(inSampleSize);
  }

  /**
   * What the loop returns from its `k`-th test on: the first power of two 2^j, j <= 30,
   * at which the test fails, having passed at every earlier one; with a positive
   * requested dimension it always returns; with none and non-negative halves it throws.
   */
  lemma {:induction false} DoublingResult(halfHeight: int, halfWidth: int, reqWidth: int, reqHeight: int, k: nat)
    returns (j: nat)
    requires k <= 32
    requires -0x4000_0000 <= halfHeight < 0x4000_0000 && -0x4000_0000 <= halfWidth < 0x4000_0000
    requires (reqHeight > 0 || reqWidth > 0) ==> k <= 30
    ensures var r := DoublingFrom(halfHeight, halfWidth, reqWidth, reqHeight, k);
      r.SampleSize? ==>
        k <= j <= 30 && r.inSampleSize == Pow2(j)
        && !KeepsRequestedSize(halfHeight, halfWidth, Pow2(j), reqWidth, reqHeight)
        && forall i :: k <= i < j ==> KeepsRequestedSize(halfHeight, halfWidth, Pow2(i), reqWidth, reqHeight)
    ensures reqHeight > 0 || reqWidth > 0 ==> DoublingFrom(halfHeight, halfWidth, reqWidth, reqHeight, k).SampleSize?
    ensures reqHeight <= 0 && reqWidth <= 0 && halfHeight >= 0 && halfWidth >= 0 ==>
              DoublingFrom(halfHeight, halfWidth, reqWidth, reqHeight, k) == DivisionByZero
    decreases 32 - k
  {
    DoubledValues(k);
    ConditionAtTheTop(halfHeight, halfWidth, reqWidth, reqHeight);
    if reqHeight <= 0 && reqWidth <= 0 && halfHeight >= 0 && halfWidth >= 0 && k <= 30 {
      ConditionWithoutRequest(halfHeight, halfWidth, Doubled(k), reqWidth, reqHeight);
    }
    if Doubled(k) == 0 {
      j := 0;
    } else if !KeepsRequestedSize(halfHeight, halfWidth, Doubled(k), reqWidth, reqHeight) {
      j := k;
    } else {
      j := DoublingResult(halfHeight, halfWidth, reqWidth, reqHeight, k + 1);
    }
  }

  /**
   * The promises of `calculateInSampleSize`: the result is a power of two, 1 when the
   * image already fits, and the largest power of two that keeps both halved dimensions
   * at least the requested ones (every smaller power passes the test, the result fails
   * it); a positive requested dimension always yields a value, and no positive
   * requested dimension with a real image ends in the division by zero.
   */
  lemma SampleSizeProperties(outHeight: Int32, outWidth: Int32, reqWidth: Int32, reqHeight: Int32)
    ensures var r := SampleSizeFor(outHeight, outWidth, reqWidth, reqHeight);
      && (r.SampleSize? ==> exists k :: 0 <= k <= 30 && r.inSampleSize == Pow2(k))
      && (outHeight <= reqHeight && outWidth <= reqWidth ==> r == SampleSize(1))
      && (r.SampleSize? ==> forall k :: 0 <= k && Pow2(k) < r.inSampleSize ==>
            KeepsRequestedSize(TDiv(outHeight, 2), TDiv(outWidth, 2), Pow2(k), reqWidth, reqHeight))
      && (r.SampleSize? && (outHeight > reqHeight || outWidth > reqWidth) ==>
            !KeepsRequestedSize(TDiv(outHeight, 2), TDiv(outWidth, 2), r.inSampleSize, reqWidth, reqHeight))
      && (reqHeight > 0 || reqWidth > 0 ==> r.SampleSize?)
      && ((reqHeight <= 0 && reqWidth <= 0 && 0 <= outHeight && 0 <= outWidth
           && (outHeight > reqHeight || outWidth > reqWidth)) ==> r == DivisionByZero)
  {
    var r := SampleSizeFor(outHeight, outWidth, reqWidth, reqHeight);
    if outHeight > reqHeight || outWidth > reqWidth {
      HalfRange(outHeight);
      HalfRange(outWidth);
      var j := DoublingResult(TDiv(outHeight, 2), TDiv(outWidth, 2), reqWidth, reqHeight, 0);
      if r.SampleSize? {
        Pow2MonotoneIndex(j);
      }
    } else {
      assert Pow2(0) == 1;
    }
  }

  /**
   * `downloadImageFromUrl` once the first pass has read the bounds (`None` when opening or
   * reading the stream failed): the second pass decodes with the computed factor;
   * every exception, the division by zero included, is caught and yields no frame.
   * `decodeWith` stands for the second decoding pass. The requested size is the image
   * view's, which is 0 by 0 until the view is laid out.
   */
  function DownloadedFrame(bounds: Option<(Int32, Int32)>, reqWidth: Int32, reqHeight: Int32,
                           decodeWith: int -> Option<Bitmap>): (frame: Option<Bitmap>)
    ensures frame.Some? ==> bounds.Some?
    ensures bounds.Some? ==>
              var outcome := SampleSizeFor(bounds.value.0, bounds.value.1, reqWidth, reqHeight);
              frame == if outcome.SampleSize? then decodeWith(outcome.inSampleSize) else None
    ensures bounds.Some? && reqWidth == 0 && reqHeight == 0 && bounds.value.0 > 0 && bounds.value.1 > 0
            ==> frame.None?
  {
    match bounds
    case None => None
    case Some((outHeight, outWidth)) =>
      SampleSizeProperties(outHeight, outWidth, reqWidth, reqHeight);
      match SampleSizeFor(outHeight, outWidth, reqWidth, reqHeight)
      case SampleSize(inSampleSize) => decodeWith(inSampleSize)
      case DivisionByZero => None
  }

  /** Below `Pow2(k)` the powers of two are exactly those of smaller exponent. */
  lemma Pow2MonotoneIndex(k: nat)
    ensures forall j :: 0 <= j && Pow2(j) < Pow2(k) ==> j < k
  {
    forall j | 0 <= j && Pow2(j) < Pow2(k)
      ensures j < k
    {
      if j >= k { Pow2Monotone(k, j); }
    }
  }

  lemma {:induction false} Pow2Monotone(a: nat, b: nat)
    requires a <= b
    ensures Pow2(a) <= Pow2(b)
    decreases b
  {
    if a < b { Pow2Monotone(a, b - 1); }
  }
}
