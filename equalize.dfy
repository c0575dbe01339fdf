/**
 * Channel-wise histogram equalisation of integer images (the same integer
 * algorithm as PIL's ImageOps.equalize): bin the pixels of one channel,
 * derive a step from the histogram, build a lookup table from the shifted
 * cumulative histogram and map every pixel through it.
 */
module Equalize {
  import opened Results

  /** What the layer raises. */
  datatype Error =
    | NotIntegerDType    // `call` on images whose dtype is not an integer type (ValueError)
    | MissingChannel     // image[..., c] on an image with c or fewer channels
    | InvalidBins        // histogram_fixed_width needs at least one bin
    | EmptyChannel       // nonzero_histogram[-1] on a channel with no pixels
    | DivisionByZero     // integer floor division by bins - 1 == 0
    | IndexOutOfRange    // gather with a pixel value outside the lookup table

  const DefaultBins: int := 256

  /** Element types of an image tensor. */
  datatype DType =
    | Int8 | Int16 | Int32 | Int64 | UInt8 | UInt16 | UInt32 | UInt64
    | Float16 | BFloat16 | Float32 | Float64 | Bool

  predicate IsInteger(d: DType) {
    d in {Int8, Int16, Int32, Int64, UInt8, UInt16, UInt32, UInt64}
  }

  /** 2 to the power of the dtype's width in bits. */
  function Modulus(d: DType): int
    requires IsInteger(d)
  {
    match d
    case Int8 => 0x100
    case UInt8 => 0x100
    case Int16 => 0x1_0000
    case UInt16 => 0x1_0000
    case Int32 => 0x1_0000_0000
    case UInt32 => 0x1_0000_0000
    case Int64 => 0x1_0000_0000_0000_0000
    case UInt64 => 0x1_0000_0000_0000_0000
  }

  /** The smallest value of an integer dtype. */
  function Lowest(d: DType): int
    requires IsInteger(d)
  {
    if d in {Int8, Int16, Int32, Int64} then -(Modulus(d) / 2) else 0
  }

  predicate Representable(v: int, d: DType)
    requires IsInteger(d)
  {
    Lowest(d) <= v < Lowest(d) + Modulus(d)
  }

  /** An integer-to-integer cast: two's-complement wrap-around into the dtype's range. */
  function Cast(v: int, d: DType): (r: int)
    requires IsInteger(d)
    ensures Representable(r, d)
    ensures Representable(v, d) ==> r == v
    ensures (r - v) % Modulus(d) == 0
  {
    Lowest(d) + (v - Lowest(d)) % Modulus(d)
  }

  function Min(a: int, b: int): int {
    if a <= b then a else b
  }

  function Clip(v: int, lo: int, hi: int): (r: int)
    requires lo <= hi
    ensures lo <= r <= hi
    ensures lo <= v <= hi ==> r == v
  {
    if v < lo then lo else if v > hi then hi else v
  }

  // ---------------------------------------------------------------------
  // Histogram

  /**
   * The bin histogram_fixed_width(values, [0, 255], nbins) puts a value in:
   * values below 0 go to the first bin, values at or above 255 to the last,
   * and v in between to floor(v * bins / 255).
   */
  function BinIndex(v: int, bins: int): (b: int)
    requires bins >= 1
    ensures 0 <= b < bins
  {
    if v < 0 then 0 else Min(bins - 1, bins * v / 255)
  }

  /** The histogram, one pixel at a time. */
  function Histogram(ch: seq<int>, bins: int): (h: seq<nat>)
    requires bins >= 1
    ensures |h| == bins
    decreases |ch|
  {
    if ch == [] then seq(bins, _ => 0)
    else
      var h0 := Histogram(ch[..|ch| - 1], bins);
      var b := BinIndex(ch[|ch| - 1], bins);
      h0[b := h0[b] + 1]
  }

  /** Reference definition: how many pixels of `ch` fall in bin `i`. */
  function CountBin(ch: seq<int>, bins: int, i: int): nat
    requires bins >= 1
  {
    if ch == [] then 0
    else (if BinIndex(ch[0], bins) == i then 1 else 0) + CountBin(ch[1..], bins, i)
  }

  /** Reference definition: how many pixels of `ch` equal `v`. */
  function CountValue(ch: seq<int>, v: int): nat {
    if ch == [] then 0
    else (if ch[0] == v then 1 else 0) + CountValue(ch[1..], v)
  }

  function Sum(s: seq<int>): int
    decreases |s|
  {
    if s == [] then 0 else Sum(s[..|s| - 1]) + s[|s| - 1]
  }

  // ---------------------------------------------------------------------
  // Step

  /** The histogram with its empty bins filtered out, order kept. */
  function NonZero(h: seq<nat>): (nz: seq<nat>)
    ensures forall i :: 0 <= i < |nz| ==> nz[i] != 0
    ensures (nz == []) <==> forall i :: 0 <= i < |h| ==> h[i] == 0
    decreases |h|
  {
    if h == [] then []
    else NonZero(h[..|h| - 1]) + (if h[|h| - 1] != 0 then [h[|h| - 1]] else [])
  }

  /** The index of the highest occupied bin, or -1 when every bin is empty. */
  function Top(h: seq<nat>): (t: int)
    ensures -1 <= t < |h|
    ensures t >= 0 ==> h[t] != 0
    ensures forall j :: t < j < |h| ==> h[j] == 0
    decreases |h|
  {
    if h == [] then -1
    else if h[|h| - 1] != 0 then |h| - 1
    else Top(h[..|h| - 1])
  }

  /**
   * The step: the pixel count without the highest occupied bin, divided by
   * bins - 1. The empty bins are filtered out only so that the last element
   * is the highest occupied bin.
   */
  function Step(h: seq<nat>, bins: int): (step: int)
    requires bins >= 2 && NonZero(h) != []
    ensures step >= 0
  {
    var nz := NonZero(h);
    SumAtLeastElement(nz, |nz| - 1);
    (Sum(nz) - nz[|nz| - 1]) / (bins - 1)
  }

  /** The step of a channel with at least one pixel. */
  function ChannelStep(ch: seq<int>, bins: int): (step: int)
    requires bins >= 2 && ch != []
    ensures step >= 0
  {
    NonZeroHistogram(ch, bins);
    Step(Histogram(ch, bins), bins)
  }

  // ---------------------------------------------------------------------
  // Lookup table

  /** Running totals of the histogram. */
  function Cumsum(h: seq<int>): (c: seq<int>)
    ensures |c| == |h|
    ensures forall k :: 1 <= k <= |h| ==> c[k - 1] == Sum(h[..k])
    decreases |h|
  {
    if h == [] then []
    else
      var c0 := Cumsum(h[..|h| - 1]);
      assert h[..|h|] == h;
      assert forall k :: 1 <= k < |h| ==> h[..|h| - 1][..k] == h[..k];
      c0 + [Sum(h)]
  }

  /**
   * build_mapping: the cumulative histogram plus step // 2, floor-divided by
   * step, shifted right by one with 0 prepended, clipped to [0, 255].
   */
  function BuildMapping(h: seq<nat>, step: int): (table: seq<int>)
    requires |h| >= 1 && step > 0
    ensures |table| == |h|
    ensures table[0] == 0
    ensures forall i :: 0 <= i < |table| ==> 0 <= table[i] <= 255
  {
    var c := Cumsum(h);
    var scaled := seq(|c|, i requires 0 <= i < |c| => (c[i] + step / 2) / step);
    var shifted := [0] + scaled[..|scaled| - 1];
    seq(|shifted|, i requires 0 <= i < |shifted| => Clip(shifted[i], 0, 255))
  }

  /** tf.gather(table, ch): every pixel must index the table. */
  function Gather(table: seq<int>, ch: seq<int>): (r: Result<seq<int>, Error>)
    ensures r.Ok? <==> forall i :: 0 <= i < |ch| ==> 0 <= ch[i] < |table|
    ensures r.Ok? ==> |r.value| == |ch| && forall i :: 0 <= i < |ch| ==> r.value[i] == table[ch[i]]
    ensures r.Err? ==> r.error == IndexOutOfRange
  {
    if forall i :: 0 <= i < |ch| ==> 0 <= ch[i] < |table| then
      Ok(seq(|ch|, i requires 0 <= i < |ch| => table[ch[i]]))
    else
      Err(IndexOutOfRange)
  }

  /** equalize_channel on the int32 values of one channel (pixels in row-major order). */
  function EqualizeChannel(ch: seq<int>, bins: int): (r: Result<seq<int>, Error>)
    ensures r.Ok? ==> |r.value| == |ch|
    ensures r.Ok? ==> forall i, j :: 0 <= i < |ch| && 0 <= j < |ch| && ch[i] == ch[j] ==> r.value[i] == r.value[j]
  {
    if bins < 1 then Err(InvalidBins)
    else
      var histogram := Histogram(ch, bins);
      if NonZero(histogram) == [] then Err(EmptyChannel)
      else if bins == 1 then Err(DivisionByZero)
      else
        var step := Step(histogram, bins);
        if step == 0 then Ok(ch)
        else Gather(BuildMapping(histogram, step), ch)
  }

  // ---------------------------------------------------------------------
  // Lemmas: sums

  lemma {:induction false} SumUpdate(s: seq<int>, i: int, v: int)
    requires 0 <= i < |s|
    ensures Sum(s[i := v]) == Sum(s) - s[i] + v
    decreases |s|
  {
    var n := |s| - 1;
    if i == n {
      assert s[i := v][..n] == s[..n];
    } else {
      assert s[i := v][..n] == s[..n][i := v];
      SumUpdate(s[..n], i, v);
    }
  }

  lemma {:induction false} SumZeros(n: nat)
    ensures Sum(seq(n, _ => 0)) == 0
  {
    if n > 0 {
      assert seq(n, _ => 0)[..n - 1] == seq(n - 1, _ => 0);
      SumZeros(n - 1);
    }
  }

  lemma {:induction false} SumNonNegative(s: seq<nat>)
    ensures Sum(s) >= 0
    decreases |s|
  {
    if s != [] {
      SumNonNegative(s[..|s| - 1]);
    }
  }

  lemma {:induction false} SumAtLeastElement(s: seq<nat>, k: int)
    requires 0 <= k < |s|
    ensures Sum(s) >= s[k]
    decreases |s|
  {
    var n := |s| - 1;
    if k == n {
      SumNonNegative(s[..n]);
    } else {
      SumAtLeastElement(s[..n], k);
    }
  }

  /** Prefix sums of non-negative counts never decrease. */
  lemma {:induction false} PrefixSumMonotone(s: seq<nat>, i: int, j: int)
    requires 0 <= i <= j <= |s|
    ensures Sum(s[..i]) <= Sum(s[..j])
    decreases j - i
  {
    if i < j {
      PrefixSumMonotone(s, i, j - 1);
      assert s[..j][..j - 1] == s[..j - 1];
    }
  }

  // ---------------------------------------------------------------------
  // Lemmas: histogram

  lemma {:induction false} CountBinSnoc(ch: seq<int>, x: int, bins: int, i: int)
    requires bins >= 1
    ensures CountBin(ch + [x], bins, i) == CountBin(ch, bins, i) + (if BinIndex(x, bins) == i then 1 else 0)
    decreases |ch|
  {
    if ch != [] {
      assert (ch + [x])[1..] == ch[1..] + [x];
      CountBinSnoc(ch[1..], x, bins, i);
    }
  }

  /** Bin i of the histogram counts exactly the pixels whose bin is i. */
  lemma {:induction false} HistogramCounts(ch: seq<int>, bins: int, i: int)
    requires bins >= 1 && 0 <= i < bins
    ensures Histogram(ch, bins)[i] == CountBin(ch, bins, i)
    decreases |ch|
  {
    if ch != [] {
      var n := |ch| - 1;
      HistogramCounts(ch[..n], bins, i);
      CountBinSnoc(ch[..n], ch[n], bins, i);
      assert ch[..n] + [ch[n]] == ch;
    }
  }

  /** The histogram has `bins` entries and its counts add up to the pixel count. */
  lemma {:induction false} HistogramTotal(ch: seq<int>, bins: int)
    requires bins >= 1
    ensures |Histogram(ch, bins)| == bins
    ensures Sum(Histogram(ch, bins)) == |ch|
    decreases |ch|
  {
    if ch == [] {
      SumZeros(bins);
    } else {
      var n := |ch| - 1;
      HistogramTotal(ch[..n], bins);
      var h0 := Histogram(ch[..n], bins);
      SumUpdate(h0, BinIndex(ch[n], bins), h0[BinIndex(ch[n], bins)] + 1);
    }
  }

  /** With the default 256 bins, a value in [0, 255] lands in its own bin. */
  lemma BinIndexDefault(v: int)
    requires 0 <= v <= 255
    ensures BinIndex(v, DefaultBins) == v
  {
    if v < 255 {
      assert 256 * v == 255 * v + v;
      assert (255 * v + v) / 255 == v;
    }
  }

  lemma {:induction false} CountBinDefault(ch: seq<int>, i: int)
    requires forall j :: 0 <= j < |ch| ==> 0 <= ch[j] <= 255
    ensures CountBin(ch, DefaultBins, i) == CountValue(ch, i)
    decreases |ch|
  {
    if ch != [] {
      BinIndexDefault(ch[0]);
      CountBinDefault(ch[1..], i);
    }
  }

  /** With the default 256 bins over [0, 255], bin i counts exactly the pixels equal to i. */
  lemma HistogramDefaultBins(ch: seq<int>, i: int)
    requires forall j :: 0 <= j < |ch| ==> 0 <= ch[j] <= 255
    requires 0 <= i < DefaultBins
    ensures Histogram(ch, DefaultBins)[i] == CountValue(ch, i)
  {
    HistogramCounts(ch, DefaultBins, i);
    CountBinDefault(ch, i);
  }

  // ---------------------------------------------------------------------
  // Lemmas: step

  /** Filtering out the empty bins keeps the total and ends at the highest occupied bin. */
  lemma {:induction false} NonZeroFacts(h: seq<nat>)
    ensures (NonZero(h) == []) <==> Top(h) == -1
    ensures NonZero(h) != [] ==> NonZero(h)[|NonZero(h)| - 1] == h[Top(h)]
    ensures Sum(NonZero(h)) == Sum(h)
    decreases |h|
  {
    if h != [] {
      var n := |h| - 1;
      NonZeroFacts(h[..n]);
      if h[n] != 0 {
        assert (NonZero(h[..n]) + [h[n]])[..|NonZero(h[..n])|] == NonZero(h[..n]);
      } else {
        assert NonZero(h) == NonZero(h[..n]);
      }
    }
  }

  /** A channel has an occupied bin exactly when it has a pixel. */
  lemma NonZeroHistogram(ch: seq<int>, bins: int)
    requires bins >= 1
    ensures (NonZero(Histogram(ch, bins)) == []) <==> ch == []
  {
    var h := Histogram(ch, bins);
    NonZeroFacts(h);
    HistogramTotal(ch, bins);
    if ch != [] && Top(h) == -1 {
      ZeroSum(h);
    }
    if ch == [] && Top(h) >= 0 {
      SumAtLeastElement(h, Top(h));
    }
  }

  lemma {:induction false} ZeroSum(h: seq<nat>)
    requires forall j :: -1 < j < |h| ==> h[j] == 0
    ensures Sum(h) == 0
    decreases |h|
  {
    if h != [] {
      ZeroSum(h[..|h| - 1]);
    }
  }

  /**
   * The step is the pixel count less the count of the highest occupied bin,
   * floor-divided by bins - 1.
   */
  lemma StepFormula(ch: seq<int>, bins: int)
    requires bins >= 2 && ch != []
    ensures Top(Histogram(ch, bins)) >= 0
    ensures ChannelStep(ch, bins) == (|ch| - Histogram(ch, bins)[Top(Histogram(ch, bins))]) / (bins - 1)
  {
    var h := Histogram(ch, bins);
    NonZeroHistogram(ch, bins);
    NonZeroFacts(h);
    HistogramTotal(ch, bins);
    var nz := NonZero(h);
    assert Sum(nz) - nz[|nz| - 1] == |ch| - h[Top(h)];
  }

  // ---------------------------------------------------------------------
  // Lemmas: lookup table

  lemma {:induction false} MulAtLeast(x: int, s: int)
    requires x >= 1 && s > 0
    ensures s * x >= s
    decreases x
  {
    if x > 1 {
      MulAtLeast(x - 1, s);
      assert s * x == s * (x - 1) + s;
    }
  }

  lemma DivMonotone(a: int, b: int, s: int)
    requires 0 <= a <= b && s > 0
    ensures a / s <= b / s
  {
    var qa, ra := a / s, a % s;
    var qb, rb := b / s, b % s;
    assert a == s * qa + ra && 0 <= ra < s;
    assert b == s * qb + rb && 0 <= rb < s;
    if qa > qb {
      MulAtLeast(qa - qb, s);
    }
  }

  /**
   * The lookup table has one entry per bin; entry 0 is 0 and entry i >= 1 is
   * the clipped, rounded quotient of the pixels in bins below i by step.
   */
  lemma MappingEntries(h: seq<nat>, step: int)
    requires |h| >= 1 && step > 0
    ensures forall i :: 1 <= i < |h| ==>
              BuildMapping(h, step)[i] == Clip((Sum(h[..i]) + step / 2) / step, 0, 255)
  {
  }

  /** The lookup table never decreases: it is built from a running total of counts. */
  lemma MappingMonotone(h: seq<nat>, step: int, i: int, j: int)
    requires |h| >= 1 && step > 0
    requires 0 <= i <= j < |h|
    ensures BuildMapping(h, step)[i] <= BuildMapping(h, step)[j]
  {
    MappingEntries(h, step);
    if 1 <= i {
      PrefixSumMonotone(h, i, j);
      SumNonNegative(h[..i]);
      DivMonotone(Sum(h[..i]) + step / 2, Sum(h[..j]) + step / 2, step);
    }
  }

  // ---------------------------------------------------------------------
  // Lemmas: the equalised channel

  /** Which error each degenerate input raises, and what a proper channel goes through. */
  lemma EqualizeChannelCases(ch: seq<int>, bins: int)
    ensures bins < 1 ==> EqualizeChannel(ch, bins) == Err(InvalidBins)
    ensures bins >= 1 && ch == [] ==> EqualizeChannel(ch, bins) == Err(EmptyChannel)
    ensures bins == 1 && ch != [] ==> EqualizeChannel(ch, bins) == Err(DivisionByZero)
    ensures bins >= 2 && ch != [] && ChannelStep(ch, bins) == 0 ==> EqualizeChannel(ch, bins) == Ok(ch)
    ensures bins >= 2 && ch != [] && ChannelStep(ch, bins) != 0 ==>
              EqualizeChannel(ch, bins) == Gather(BuildMapping(Histogram(ch, bins), ChannelStep(ch, bins)), ch)
  {
    if bins >= 1 {
      NonZeroHistogram(ch, bins);
    }
  }

  /**
   * A channel with pixels succeeds when every pixel indexes the table; in
   * particular with the default 256 bins and pixels in [0, 255].
   */
  lemma EqualizeChannelSucceeds(ch: seq<int>, bins: int)
    requires bins >= 2 && ch != []
    requires forall i :: 0 <= i < |ch| ==> 0 <= ch[i] < bins
    ensures EqualizeChannel(ch, bins).Ok?
    ensures |EqualizeChannel(ch, bins).value| == |ch|
  {
    EqualizeChannelCases(ch, bins);
    if ChannelStep(ch, bins) != 0 {
      MappingEntries(Histogram(ch, bins), ChannelStep(ch, bins));
    }
  }

  /** A failure on a channel with pixels and at least two bins can only be a pixel outside the table. */
  lemma EqualizeChannelFailure(ch: seq<int>, bins: int)
    requires bins >= 2 && ch != []
    requires EqualizeChannel(ch, bins).Err?
    ensures EqualizeChannel(ch, bins) == Err(IndexOutOfRange)
    ensures exists i :: 0 <= i < |ch| && !(0 <= ch[i] < bins)
  {
    EqualizeChannelCases(ch, bins);
    MappingEntries(Histogram(ch, bins), ChannelStep(ch, bins));
  }

  lemma {:induction false} HistogramOfConstant(ch: seq<int>, bins: int, v: int, i: int)
    requires bins >= 1 && 0 <= i < bins
    requires forall j :: 0 <= j < |ch| ==> ch[j] == v
    ensures Histogram(ch, bins)[i] == if i == BinIndex(v, bins) then |ch| else 0
    decreases |ch|
  {
    if ch != [] {
      HistogramOfConstant(ch[..|ch| - 1], bins, v, i);
    }
  }

  /** A channel made of a single value has a zero step, so it comes back unchanged. */
  lemma SingleValueUnchanged(ch: seq<int>, bins: int, v: int)
    requires bins >= 2 && ch != []
    requires forall j :: 0 <= j < |ch| ==> ch[j] == v
    ensures ChannelStep(ch, bins) == 0
    ensures EqualizeChannel(ch, bins) == Ok(ch)
  {
    var h := Histogram(ch, bins);
    StepFormula(ch, bins);
    HistogramOfConstant(ch, bins, v, Top(h));
    EqualizeChannelCases(ch, bins);
  }

  /** Every output pixel is in [0, 255], unless the step is zero and the channel is returned as it was. */
  lemma EqualizeRange(ch: seq<int>, bins: int)
    requires EqualizeChannel(ch, bins).Ok?
    ensures |EqualizeChannel(ch, bins).value| == |ch|
    ensures var out := EqualizeChannel(ch, bins).value;
            out == ch || forall i :: 0 <= i < |out| ==> 0 <= out[i] <= 255
    ensures (forall i :: 0 <= i < |ch| ==> 0 <= ch[i] <= 255) ==>
            forall i :: 0 <= i < |ch| ==> 0 <= EqualizeChannel(ch, bins).value[i] <= 255
  {
    EqualizeChannelCases(ch, bins);
    if ChannelStep(ch, bins) != 0 {
      MappingEntries(Histogram(ch, bins), ChannelStep(ch, bins));
    }
  }

  /**
   * Each output pixel depends only on its own input value, and the mapping
   * never decreases.
   */
  lemma EqualizeMonotone(ch: seq<int>, bins: int, i: int, j: int)
    requires EqualizeChannel(ch, bins).Ok?
    requires 0 <= i < |ch| && 0 <= j < |ch|
    ensures |EqualizeChannel(ch, bins).value| == |ch|
    ensures ch[i] == ch[j] ==> EqualizeChannel(ch, bins).value[i] == EqualizeChannel(ch, bins).value[j]
    ensures ch[i] <= ch[j] ==> EqualizeChannel(ch, bins).value[i] <= EqualizeChannel(ch, bins).value[j]
  {
    EqualizeChannelCases(ch, bins);
    var step := ChannelStep(ch, bins);
    if step != 0 {
      var h := Histogram(ch, bins);
      MappingEntries(h, step);
      if ch[i] <= ch[j] {
        MappingMonotone(h, step, ch[i], ch[j]);
      }
    }
  }

  /**
   * The table is indexed by raw pixel value, so a pixel at or above `bins`
   * fails the lookup: with two bins, the channel [0, 200] is rejected.
   */
  lemma SmallBinsRejectLargePixels()
    ensures EqualizeChannel([0, 200], 2) == Err(IndexOutOfRange)
  {
    var ch := [0, 200];
    assert ch[..1] == [0];
    assert ch[..1][..0] == [];
    assert BinIndex(0, 2) == 0;
    assert BinIndex(200, 2) == 1;
    assert Histogram([], 2) == [0, 0];
    assert Histogram([0], 2) == [1, 0];
    var h := Histogram(ch, 2);
    assert h == [1, 1];
    assert h[..1] == [1];
    assert h[..1][..0] == [];
    assert NonZero([]) == [];
    assert NonZero([1]) == [1];
    assert NonZero(h) == [1, 1];
    assert Sum([1]) == 1;
    assert Sum([1, 1]) == 2;
    assert Step(h, 2) == 1;
  }

  // ---------------------------------------------------------------------
  // The layer's call on a batch

  /**
   * A batch of images as the tensor holds it: `images[n][p][c]` is channel c
   * of pixel p (row-major over height x width) of image n.
   */
  datatype Batch = Batch(dtype: DType, height: nat, width: nat, channels: nat, images: seq<seq<seq<int>>>)

  predicate Shaped(images: seq<seq<seq<int>>>, pixels: int, channels: int) {
    && (forall n :: 0 <= n < |images| ==> |images[n]| == pixels)
    && (forall n, p :: 0 <= n < |images| && 0 <= p < |images[n]| ==> |images[n][p]| == channels)
  }

  /** The tensor is rectangular, and an integer tensor holds values of its dtype. */
  predicate WellFormed(b: Batch) {
    && Shaped(b.images, b.height * b.width, b.channels)
    && (IsInteger(b.dtype) ==>
          forall n, p, c :: 0 <= n < |b.images| && 0 <= p < |b.images[n]| && 0 <= c < |b.images[n][p]|
                            ==> Representable(b.images[n][p][c], b.dtype))
  }

  /** tf.cast(image[..., c], tf.int32). */
  function ChannelOf(img: seq<seq<int>>, c: nat): (ch: seq<int>)
    requires forall p :: 0 <= p < |img| ==> c < |img[p]|
    ensures |ch| == |img|
    ensures forall p :: 0 <= p < |img| && Representable(img[p][c], Int32) ==> ch[p] == img[p][c]
  {
    seq(|img|, p requires 0 <= p < |img| => Cast(img[p][c], Int32))
  }

  /** equalize_channel(image, c): equalise channel c, then cast back to the input dtype. */
  function EqualizeImageChannel(img: seq<seq<int>>, channels: nat, c: nat, bins: int, d: DType): (r: Result<seq<int>, Error>)
    requires IsInteger(d)
    requires forall p :: 0 <= p < |img| ==> |img[p]| == channels
    ensures c >= channels ==> r == Err(MissingChannel)
    ensures r.Ok? ==> |r.value| == |img|
    ensures r.Ok? ==> forall p :: 0 <= p < |img| ==> Representable(r.value[p], d)
  {
    if c >= channels then Err(MissingChannel)
    else
      var out :- EqualizeChannel(ChannelOf(img, c), bins);
      Ok(seq(|out|, p requires 0 <= p < |out| => Cast(out[p], d)))
  }

  /** tf.map_fn over the images, in order: the first failure is what is raised. */
  function MapChannel(images: seq<seq<seq<int>>>, channels: nat, c: nat, bins: int, d: DType): (r: Result<seq<seq<int>>, Error>)
    requires IsInteger(d)
    requires forall n, p :: 0 <= n < |images| && 0 <= p < |images[n]| ==> |images[n][p]| == channels
    ensures r.Ok? ==> |r.value| == |images|
    ensures r.Ok? ==> forall n :: 0 <= n < |images| ==> EqualizeImageChannel(images[n], channels, c, bins, d) == Ok(r.value[n])
    ensures (forall n :: 0 <= n < |images| ==> EqualizeImageChannel(images[n], channels, c, bins, d).Ok?) ==> r.Ok?
    decreases |images|
  {
    if images == [] then Ok([])
    else
      var first :- EqualizeImageChannel(images[0], channels, c, bins, d);
      var rest :- MapChannel(images[1..], channels, c, bins, d);
      Ok([first] + rest)
  }

  /** The outcome of equalize_channel on each image of the pass, in order. */
  function Outcomes(images: seq<seq<seq<int>>>, channels: nat, c: nat, bins: int, d: DType): (os: seq<Result<seq<int>, Error>>)
    requires IsInteger(d)
    requires forall n, p :: 0 <= n < |images| && 0 <= p < |images[n]| ==> |images[n][p]| == channels
    ensures |os| == |images|
    ensures forall n :: 0 <= n < |images| ==> os[n] == EqualizeImageChannel(images[n], channels, c, bins, d)
  {
    seq(|images|, n requires 0 <= n < |images| => EqualizeImageChannel(images[n], channels, c, bins, d))
  }

  /** Outcome n is the first failure, and it fails with err. */
  predicate FirstFailure<T>(os: seq<Result<T, Error>>, n: int, err: Error) {
    && 0 <= n < |os|
    && os[n] == Err(err)
    && forall m :: 0 <= m < n ==> os[m].Ok?
  }

  /** Putting a success in front moves the first failure one place on. */
  lemma FirstFailureShift<T>(os: seq<Result<T, Error>>, n: int, err: Error)
    requires os != [] && os[0].Ok?
    requires FirstFailure(os[1..], n, err)
    ensures FirstFailure(os, n + 1, err)
  {
    assert os[n + 1] == os[1..][n];
    forall m | 0 <= m < n + 1
      ensures os[m].Ok?
    {
      if m > 0 {
        assert os[m] == os[1..][m - 1];
      }
    }
  }

  lemma OutcomesTail(images: seq<seq<seq<int>>>, channels: nat, c: nat, bins: int, d: DType)
    requires IsInteger(d) && images != []
    requires forall n, p :: 0 <= n < |images| && 0 <= p < |images[n]| ==> |images[n][p]| == channels
    ensures Outcomes(images[1..], channels, c, bins, d) == Outcomes(images, channels, c, bins, d)[1..]
  {
    var rest := images[1..];
    var tail, os := Outcomes(rest, channels, c, bins, d), Outcomes(images, channels, c, bins, d);
    forall m | 0 <= m < |tail|
      ensures tail[m] == os[1..][m]
    {
      assert rest[m] == images[m + 1];
    }
  }

  /** A failed pass raises the error of the first image that fails. */
  lemma {:induction false} MapChannelError(images: seq<seq<seq<int>>>, channels: nat, c: nat, bins: int, d: DType)
    requires IsInteger(d)
    requires forall n, p :: 0 <= n < |images| && 0 <= p < |images[n]| ==> |images[n][p]| == channels
    requires MapChannel(images, channels, c, bins, d).Err?
    ensures exists n :: FirstFailure(Outcomes(images, channels, c, bins, d), n, MapChannel(images, channels, c, bins, d).error)
    decreases |images|
  {
    var err := MapChannel(images, channels, c, bins, d).error;
    var os := Outcomes(images, channels, c, bins, d);
    assert images != [];
    if os[0].Err? {
      assert FirstFailure(os, 0, err);
    } else {
      var rest := images[1..];
      assert MapChannel(rest, channels, c, bins, d) == Err(err);
      MapChannelError(rest, channels, c, bins, d);
      OutcomesTail(images, channels, c, bins, d);
      var n :| FirstFailure(os[1..], n, err);
      FirstFailureShift(os, n, err);
    }
  }

  /** tf.stack([r, g, b], axis=-1). */
  function Stack(r: seq<seq<int>>, g: seq<seq<int>>, bl: seq<seq<int>>): (s: seq<seq<seq<int>>>)
    requires |r| == |g| == |bl|
    requires forall n :: 0 <= n < |r| ==> |r[n]| == |g[n]| == |bl[n]|
    ensures |s| == |r|
    ensures forall n :: 0 <= n < |r| ==> |s[n]| == |r[n]|
    ensures forall n, p :: 0 <= n < |r| && 0 <= p < |r[n]| ==> s[n][p] == [r[n][p], g[n][p], bl[n][p]]
  {
    seq(|r|, n requires 0 <= n < |r| =>
      seq(|r[n]|, p requires 0 <= p < |r[n]| => [r[n][p], g[n][p], bl[n][p]]))
  }

  /** Equalize.call: reject non-integer images, then equalise channels 0, 1 and 2 of every image and stack them. */
  function Call(b: Batch, bins: int): (r: Result<Batch, Error>)
    requires WellFormed(b)
    ensures !IsInteger(b.dtype) ==> r == Err(NotIntegerDType)
  {
    if !IsInteger(b.dtype) then Err(NotIntegerDType)
    else
      var red :- MapChannel(b.images, b.channels, 0, bins, b.dtype);
      var green :- MapChannel(b.images, b.channels, 1, bins, b.dtype);
      var blue :- MapChannel(b.images, b.channels, 2, bins, b.dtype);
      Ok(Batch(b.dtype, b.height, b.width, 3, Stack(red, green, blue)))
  }

  /** A successful call is the stack of three successful passes over the images. */
  lemma CallOk(b: Batch, bins: int)
    requires WellFormed(b)
    requires Call(b, bins).Ok?
    ensures IsInteger(b.dtype)
    ensures MapChannel(b.images, b.channels, 0, bins, b.dtype).Ok?
    ensures MapChannel(b.images, b.channels, 1, bins, b.dtype).Ok?
    ensures MapChannel(b.images, b.channels, 2, bins, b.dtype).Ok?
    ensures Call(b, bins).value
            == Batch(b.dtype, b.height, b.width, 3,
                     Stack(MapChannel(b.images, b.channels, 0, bins, b.dtype).value,
                           MapChannel(b.images, b.channels, 1, bins, b.dtype).value,
                           MapChannel(b.images, b.channels, 2, bins, b.dtype).value))
  {
  }

  lemma PassOk(b: Batch, bins: int, c: int)
    requires WellFormed(b)
    requires Call(b, bins).Ok?
    requires c == 0 || c == 1 || c == 2
    ensures IsInteger(b.dtype)
    ensures MapChannel(b.images, b.channels, c, bins, b.dtype).Ok?
  {
    CallOk(b, bins);
    if c == 0 {
      assert MapChannel(b.images, b.channels, 0, bins, b.dtype).Ok?;
    } else if c == 1 {
      assert MapChannel(b.images, b.channels, 1, bins, b.dtype).Ok?;
    } else {
      assert MapChannel(b.images, b.channels, 2, bins, b.dtype).Ok?;
    }
  }

  /** Pixel p of image n of a successful call stacks pixel p of the three per-channel passes. */
  lemma CallPixel(b: Batch, bins: int, n: int, p: int)
    requires WellFormed(b)
    requires Call(b, bins).Ok?
    requires 0 <= n < |b.images| && 0 <= p < |b.images[n]|
    ensures IsInteger(b.dtype)
    ensures |Call(b, bins).value.images| == |b.images|
    ensures |Call(b, bins).value.images[n]| == |b.images[n]|
    ensures Call(b, bins).value.images[n][p]
            == [MapChannel(b.images, b.channels, 0, bins, b.dtype).value[n][p],
                MapChannel(b.images, b.channels, 1, bins, b.dtype).value[n][p],
                MapChannel(b.images, b.channels, 2, bins, b.dtype).value[n][p]]
  {
    CallOk(b, bins);
    var red := MapChannel(b.images, b.channels, 0, bins, b.dtype).value;
    assert EqualizeImageChannel(b.images[n], b.channels, 0, bins, b.dtype) == Ok(red[n]);
  }

  /** What a successful equalize_channel(image, c) returns, pixel by pixel. */
  lemma ImageChannelValue(img: seq<seq<int>>, channels: nat, c: nat, bins: int, d: DType, v: seq<int>)
    requires IsInteger(d)
    requires forall p :: 0 <= p < |img| ==> |img[p]| == channels
    requires EqualizeImageChannel(img, channels, c, bins, d) == Ok(v)
    ensures c < channels
    ensures EqualizeChannel(ChannelOf(img, c), bins).Ok?
    ensures |v| == |img|
    ensures forall p :: 0 <= p < |v| ==> v[p] == Cast(EqualizeChannel(ChannelOf(img, c), bins).value[p], d)
  {
  }

  /**
   * A successful call keeps the dtype, the number of images and their height
   * and width, and always yields exactly three channels of that dtype.
   */
  lemma CallShape(b: Batch, bins: int)
    requires WellFormed(b)
    requires Call(b, bins).Ok?
    ensures var out := Call(b, bins).value;
            && out.dtype == b.dtype && out.height == b.height && out.width == b.width
            && out.channels == 3 && |out.images| == |b.images|
            && WellFormed(out)
  {
    CallOk(b, bins);
    var out := Call(b, bins).value;
    forall n, p | 0 <= n < |b.images| && 0 <= p < |b.images[n]|
      ensures |out.images[n]| == b.height * b.width
      ensures |out.images[n][p]| == 3
      ensures forall c :: 0 <= c < 3 ==> Representable(out.images[n][p][c], b.dtype)
    {
      PixelRepresentable(b, bins, n, p);
    }
  }

  /**
   * Channel c < 3 of every output pixel is that pixel's value in the
   * equalised channel c of the same image, cast back to the input dtype:
   * channels are equalised independently.
   */
  lemma CallChannels(b: Batch, bins: int, n: int, p: int, c: int)
    requires WellFormed(b)
    requires Call(b, bins).Ok?
    requires 0 <= n < |b.images| && 0 <= p < |b.images[n]| && 0 <= c < 3
    ensures c < b.channels
    ensures EqualizeChannel(ChannelOf(b.images[n], c), bins).Ok?
    ensures |Call(b, bins).value.images| == |b.images|
    ensures |Call(b, bins).value.images[n]| == |b.images[n]|
    ensures |Call(b, bins).value.images[n][p]| == 3
    ensures Call(b, bins).value.images[n][p][c]
            == Cast(EqualizeChannel(ChannelOf(b.images[n], c), bins).value[p], b.dtype)
  {
    CallPixel(b, bins, n, p);
    CallOk(b, bins);
    PassOk(b, bins, c);
    var v := MapChannel(b.images, b.channels, c, bins, b.dtype).value;
    assert Call(b, bins).value.images[n][p][c] == v[n][p] by {
      if c == 0 {} else if c == 1 {} else {}
    }
    assert EqualizeImageChannel(b.images[n], b.channels, c, bins, b.dtype) == Ok(v[n]);
    ImageChannelValue(b.images[n], b.channels, c, bins, b.dtype, v[n]);
  }

  lemma PixelRepresentable(b: Batch, bins: int, n: int, p: int)
    requires WellFormed(b)
    requires Call(b, bins).Ok?
    requires 0 <= n < |b.images| && 0 <= p < |b.images[n]|
    ensures IsInteger(b.dtype)
    ensures |Call(b, bins).value.images| == |b.images|
    ensures |Call(b, bins).value.images[n]| == |b.images[n]|
    ensures |Call(b, bins).value.images[n][p]| == 3
    ensures forall c :: 0 <= c < 3 ==> Representable(Call(b, bins).value.images[n][p][c], b.dtype)
  {
    CallPixel(b, bins, n, p);
    forall c | 0 <= c < 3
      ensures Representable(Call(b, bins).value.images[n][p][c], b.dtype)
    {
      CallChannels(b, bins, n, p, c);
    }
  }

  /** One channel of an image with pixels in [0, 255] equalises with the default bins. */
  lemma ImageChannelSucceeds(img: seq<seq<int>>, channels: nat, c: nat, d: DType)
    requires IsInteger(d) && c < channels && img != []
    requires forall p :: 0 <= p < |img| ==> |img[p]| == channels
    requires forall p :: 0 <= p < |img| ==> 0 <= img[p][c] <= 255
    ensures EqualizeImageChannel(img, channels, c, DefaultBins, d).Ok?
  {
    EqualizeChannelSucceeds(ChannelOf(img, c), DefaultBins);
  }

  /**
   * Integer images with at least three channels, at least one pixel and
   * values in [0, 255] are equalised with the default bins without error.
   */
  lemma CallSucceeds(b: Batch)
    requires WellFormed(b) && IsInteger(b.dtype)
    requires b.channels >= 3 && b.height * b.width >= 1
    requires forall n, p, c :: 0 <= n < |b.images| && 0 <= p < |b.images[n]| && 0 <= c < |b.images[n][p]|
                               ==> 0 <= b.images[n][p][c] <= 255
    ensures Call(b, DefaultBins).Ok?
  {
    forall c, n | 0 <= c < 3 && 0 <= n < |b.images|
      ensures EqualizeImageChannel(b.images[n], b.channels, c, DefaultBins, b.dtype).Ok?
    {
      ImageChannelSucceeds(b.images[n], b.channels, c, b.dtype);
    }
    assert MapChannel(b.images, b.channels, 0, DefaultBins, b.dtype).Ok?;
    assert MapChannel(b.images, b.channels, 1, DefaultBins, b.dtype).Ok?;
    assert MapChannel(b.images, b.channels, 2, DefaultBins, b.dtype).Ok?;
  }

  /** A value in [0, 255] survives the cast to every integer dtype except int8. */
  lemma ByteFits(v: int, d: DType)
    requires 0 <= v <= 255 && IsInteger(d) && d != Int8
    ensures Cast(v, d) == v
  {
    assert Representable(v, d);
  }

  /** The extracted channel of pixels in [0, 255] is in [0, 255]. */
  lemma ChannelOfBytes(img: seq<seq<int>>, c: nat)
    requires forall p :: 0 <= p < |img| ==> c < |img[p]| && 0 <= img[p][c] <= 255
    ensures forall p :: 0 <= p < |img| ==> 0 <= ChannelOf(img, c)[p] <= 255
  {
    forall p | 0 <= p < |img|
      ensures 0 <= ChannelOf(img, c)[p] <= 255
    {
      assert Representable(img[p][c], Int32);
    }
  }

  /**
   * Output pixels stay in [0, 255] when the inputs are in [0, 255] and the
   * dtype can hold 255 (every integer dtype except int8, where the cast back
   * wraps around).
   */
  lemma CallRange(b: Batch, bins: int, n: int, p: int, c: int)
    requires WellFormed(b) && IsInteger(b.dtype) && b.dtype != Int8
    requires forall n, p, c :: 0 <= n < |b.images| && 0 <= p < |b.images[n]| && 0 <= c < |b.images[n][p]|
                               ==> 0 <= b.images[n][p][c] <= 255
    requires Call(b, bins).Ok?
    requires 0 <= n < |b.images| && 0 <= p < |b.images[n]| && 0 <= c < 3
    ensures |Call(b, bins).value.images| == |b.images|
    ensures |Call(b, bins).value.images[n]| == |b.images[n]|
    ensures |Call(b, bins).value.images[n][p]| == 3
    ensures 0 <= Call(b, bins).value.images[n][p][c] <= 255
  {
    CallChannels(b, bins, n, p, c);
    var img := b.images[n];
    ChannelOfBytes(img, c);
    var ch := ChannelOf(img, c);
    EqualizeRange(ch, bins);
    ByteFits(EqualizeChannel(ch, bins).value[p], b.dtype);
  }
}
