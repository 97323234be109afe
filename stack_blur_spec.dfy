/** What Stack Blur computes, stated without the ring buffer: every colour
    channel, along a row and then along a column, becomes the triangular
    weighted sum of its clamped neighbourhood divided by (radius + 1)^2.

    The lemmas here are the facts the imperative fastblur relies on: the
    running sums slide from one position to the next, the weighted sum of
    channel values indexes the division table, and a line of one colour is
    a fixed point. */
module StackBlurSpec {
  import opened Argb
  import opened Bitmaps
  import SampleSize

  function Min(a: int, b: int): int
  {
    if a <= b then a else b
  }

  function Abs(i: int): nat
  {
    if i < 0 then -i else i
  }

  /** `Math.min(hi, Math.max(j, 0))`: the nearest valid index to j. */
  function Clamp(j: int, hi: nat): (c: int)
    ensures 0 <= c <= hi
    ensures 0 <= j <= hi ==> c == j
  {
    Min(hi, SampleSize.Max(j, 0))
  }

  /** The sample at position j of a line, edges repeated. */
  function At(v: seq<int>, j: int): int
    requires |v| > 0
  {
    v[Clamp(j, |v| - 1)]
  }

  /** The weight `r1 - Math.abs(i)` of the sample at offset i. */
  function Weight(r: nat, i: int): int
  {
    r + 1 - Abs(i)
  }

  /** The weighted sample at offset i of the kernel centred at x. */
  function Term(v: seq<int>, x: int, r: nat, i: int): int
    requires |v| > 0
  {
    Weight(r, i) * At(v, x + i)
  }

  /** The first n terms, offsets -r to n - 1 - r, of the triangular kernel
      centred at x. */
  function PartialKernel(v: seq<int>, x: int, r: nat, n: nat): int
    requires |v| > 0
  {
    if n == 0 then 0
    else PartialKernel(v, x, r, n - 1) + Term(v, x, r, n - 1 - r)
  }

  /** Sum over i in [-r, r] of (r + 1 - |i|) * v[clamp(x + i)]. */
  function Kernel(v: seq<int>, x: int, r: nat): int
    requires |v| > 0
  {
    PartialKernel(v, x, r, 2 * r + 1)
  }

  /** Sum of the samples at positions lo to hi - 1. */
  function SumRange(v: seq<int>, lo: int, hi: int): int
    requires |v| > 0
    decreases hi - lo
  {
    if hi <= lo then 0 else SumRange(v, lo, hi - 1) + At(v, hi - 1)
  }

  /** `divsum`: `((div + 1) >> 1)` squared, with div = 2r + 1. */
  function Divisor(r: nat): (d: int)
    ensures d >= 1
  {
    (r + 1) * (r + 1)
  }

  // ---------------------------------------------------------------------
  // Sliding the window
  // ---------------------------------------------------------------------

  lemma {:induction false} SumRangeDropFirst(v: seq<int>, lo: int, hi: int)
    requires |v| > 0 && lo < hi
    ensures SumRange(v, lo, hi) == At(v, lo) + SumRange(v, lo + 1, hi)
    decreases hi - lo
  {
    if lo + 1 < hi {
      SumRangeDropFirst(v, lo, hi - 1);
    }
  }

  /** Sliding the first n <= r terms, all left of the centre: each sample
      loses one unit of weight. */
  lemma {:induction false} PartialKernelSlideLeft(v: seq<int>, x: int, r: nat, n: nat)
    requires |v| > 0 && n <= r
    ensures PartialKernel(v, x + 1, r, n)
            == PartialKernel(v, x, r, n + 1) - SumRange(v, x - r, x + n - r + 1)
  {
    if n == 0 {
      assert Weight(r, -(r as int)) == 1;
      assert PartialKernel(v, x, r, 1) == At(v, x - r);
    } else {
      PartialKernelSlideLeft(v, x, r, n - 1);
      assert PartialKernel(v, x + 1, r, n) == PartialKernel(v, x + 1, r, n - 1) + Term(v, x + 1, r, n - r - 1);
      assert PartialKernel(v, x, r, n + 1) == PartialKernel(v, x, r, n) + Term(v, x, r, n - r);
      TermSlide(v, x, r, n - r);
      assert SumRange(v, x - r, x + n - r + 1) == SumRange(v, x - r, x + n - r) + At(v, x + n - r);
    }
  }

  /** Sliding the first n > r terms: the samples up to the centre lose one
      unit of weight each, those past it gain one. */
  lemma {:induction false} PartialKernelSlideRight(v: seq<int>, x: int, r: nat, n: nat)
    requires |v| > 0 && r < n <= 2 * r + 1
    ensures PartialKernel(v, x + 1, r, n)
            == PartialKernel(v, x, r, n + 1) - SumRange(v, x - r, x + 1) + SumRange(v, x + 1, x + n - r + 1)
  {
    if n == r + 1 {
      PartialKernelSlideLeft(v, x, r, r);
    } else {
      PartialKernelSlideRight(v, x, r, n - 1);
    }
    assert PartialKernel(v, x + 1, r, n) == PartialKernel(v, x + 1, r, n - 1) + Term(v, x + 1, r, n - r - 1);
    assert PartialKernel(v, x, r, n + 1) == PartialKernel(v, x, r, n) + Term(v, x, r, n - r);
    TermSlide(v, x, r, n - r);
    assert SumRange(v, x + 1, x + n - r + 1) == SumRange(v, x + 1, x + n - r) + At(v, x + n - r);
  }

  /** Seen from x + 1 the sample at x + j sits at offset j - 1: its weight
      is one less when j <= 0 and one more past the centre. */
  lemma TermSlide(v: seq<int>, x: int, r: nat, j: int)
    requires |v| > 0
    ensures Term(v, x + 1, r, j - 1)
            == Term(v, x, r, j) + (if j <= 0 then -At(v, x + j) else At(v, x + j))
  {
    assert At(v, x + 1 + (j - 1)) == At(v, x + j);
    if j <= 0 {
      MulAddOne(Weight(r, j - 1), At(v, x + j));
    } else {
      MulAddOne(Weight(r, j), At(v, x + j));
    }
  }

  /** Moving the centre one step: the left half (offsets -r..0) loses one
      unit of weight per sample, the right half (offsets 1..r+1) gains one. */
  lemma KernelSlide(v: seq<int>, x: int, r: nat)
    requires |v| > 0
    ensures Kernel(v, x + 1, r)
            == Kernel(v, x, r) - SumRange(v, x - r, x + 1) + SumRange(v, x + 1, x + r + 2)
  {
    var n := 2 * r + 1;
    PartialKernelSlideRight(v, x, r, n);
    assert x + n - r + 1 == x + r + 2;
    assert Weight(r, r + 1) == 0;
    assert PartialKernel(v, x, r, n + 1) == PartialKernel(v, x, r, n) + Term(v, x, r, r + 1);
  }

  /** The running sums of one channel with the window centred at x: `sum`
      the kernel, `outsum` the samples at offsets -r..0 (leaving), `insum`
      those at offsets 1..r (entering). */
  ghost predicate Running(v: seq<int>, x: int, r: nat, sum: int, insum: int, outsum: int)
    requires |v| > 0
  {
    sum == Kernel(v, x, r) && outsum == LeftHalf(v, x, r) && insum == RightHalf(v, x, r)
  }

  /** The samples at offsets -r..0 of the window centred at x. */
  function LeftHalf(v: seq<int>, x: int, r: nat): int
    requires |v| > 0
  {
    SumRange(v, x - r, x + 1)
  }

  /** The samples at offsets 1..r of the window centred at x. */
  function RightHalf(v: seq<int>, x: int, r: nat): int
    requires |v| > 0
  {
    SumRange(v, x + 1, x + r + 1)
  }

  /** One step of the sliding loop of fastblur, in the order the Java code
      performs it: subtract outsum from sum, drop the oldest sample from
      outsum, add the new far-right sample to insum and insum to sum, then
      move the new centre sample from insum to outsum. */
  lemma SlideStep(v: seq<int>, x: int, r: nat, sum: int, insum: int, outsum: int)
    requires |v| > 0
    requires Running(v, x, r, sum, insum, outsum)
    ensures var insum' := insum + At(v, x + r + 1);
            Running(v, x + 1, r,
                    sum - outsum + insum',
                    insum' - At(v, x + 1),
                    outsum - At(v, x - r) + At(v, x + 1))
  {
    KernelSlide(v, x, r);
    SumRangeDropFirst(v, x - r, x + 2);
    SumRangeDropFirst(v, x + 1, x + r + 2);
  }

  /** The running sums of one channel while the window centred at 0 is
      loaded, offsets -r to i - 1 done: the kernel so far, the loaded
      samples at offsets <= 0 in outsum, those at offsets > 0 in insum. */
  ghost predicate Loading(v: seq<int>, r: nat, i: int, sum: int, insum: int, outsum: int)
    requires |v| > 0 && 0 <= i + r
  {
    sum == LoadedKernel(v, r, i) && outsum == LoadedLeft(v, r, i) && insum == LoadedRight(v, r, i)
  }

  /** The kernel terms at offsets -r to i - 1 of the window centred at 0. */
  function LoadedKernel(v: seq<int>, r: nat, i: int): int
    requires |v| > 0 && 0 <= i + r
  {
    PartialKernel(v, 0, r, i + r)
  }

  /** The loaded samples at offsets -r to min(i, 1) - 1. */
  function LoadedLeft(v: seq<int>, r: nat, i: int): int
    requires |v| > 0
  {
    SumRange(v, -(r as int), Min(i, 1))
  }

  /** The loaded samples at offsets 1 to max(i, 1) - 1. */
  function LoadedRight(v: seq<int>, r: nat, i: int): int
    requires |v| > 0
  {
    SumRange(v, 1, SampleSize.Max(i, 1))
  }

  /** One step of the loading loop: the sample at offset i enters the kernel
      with weight `r1 - Math.abs(i)`, and insum when i > 0, outsum otherwise. */
  lemma LoadStep(v: seq<int>, r: nat, i: int, sum: int, insum: int, outsum: int)
    requires |v| > 0 && 0 <= i + r && i <= r
    requires Loading(v, r, i, sum, insum, outsum)
    ensures var a := At(v, i);
            Loading(v, r, i + 1, sum + a * Weight(r, i),
                    if i > 0 then insum + a else insum,
                    if i > 0 then outsum else outsum + a)
  {
    assert PartialKernel(v, 0, r, i + 1 + r) == sum + Weight(r, i) * At(v, i);
  }

  /** Once offsets -r to r are loaded, the sums are the running sums of the
      window centred at 0. */
  lemma LoadDone(v: seq<int>, r: nat, sum: int, insum: int, outsum: int)
    requires |v| > 0
    requires Loading(v, r, r + 1, sum, insum, outsum)
    ensures Running(v, 0, r, sum, insum, outsum)
  {
  }

  // ---------------------------------------------------------------------
  // Bounds and uniform lines
  // ---------------------------------------------------------------------

  /** The sum of the first n weights. */
  function WeightSum(r: nat, n: nat): int
  {
    if n == 0 then 0 else WeightSum(r, n - 1) + Weight(r, n - 1 - r)
  }

  /** The rising half of the kernel: weights 1, 2, ..., n add up to
      n(n + 1)/2. */
  lemma {:induction false} RisingWeightSum(r: nat, n: nat)
    requires n <= r + 1
    ensures 2 * WeightSum(r, n) == n * (n + 1)
  {
    if n > 0 {
      RisingWeightSum(r, n - 1);
      RisingStep(n);
    }
  }

  /** Past the centre the weights fall again: r, r - 1, ..., r + 1 - m for
      the m terms after the first r + 1. */
  lemma {:induction false} FallingWeightSum(r: nat, m: nat)
    requires m <= r
    ensures 2 * WeightSum(r, r + 1 + m) == (r + 1) * (r + 2) + 2 * m * r - m * (m - 1)
  {
    if m == 0 {
      RisingWeightSum(r, r + 1);
    } else {
      FallingWeightSum(r, m - 1);
      FallingStep(r, m);
    }
  }

  lemma RisingStep(n: int)
    ensures n * (n + 1) == (n - 1) * n + 2 * n
  {
  }

  lemma FallingStep(r: int, m: int)
    ensures 2 * m * r - m * (m - 1) == 2 * (m - 1) * r - (m - 1) * (m - 2) + 2 * (r + 1 - m)
  {
  }

  /** The weights of the whole kernel add up to (r + 1)^2, the divisor. */
  lemma WeightTotal(r: nat)
    ensures WeightSum(r, 2 * r + 1) == Divisor(r)
  {
    FallingWeightSum(r, r);
    if r > 0 {
      assert 2 * WeightSum(r, 2 * r + 1) == (r + 1) * (r + 2) + 2 * r * r - r * (r - 1);
      assert (r + 1) * (r + 2) + 2 * r * r - r * (r - 1) == 2 * (r + 1) * (r + 1);
    }
  }

  predicate IsChannelLine(v: seq<int>)
  {
    forall k :: 0 <= k < |v| ==> IsChannel(v[k])
  }

  lemma {:induction false} PartialKernelBounds(v: seq<int>, x: int, r: nat, n: nat)
    requires |v| > 0 && IsChannelLine(v) && n <= 2 * r + 1
    ensures 0 <= PartialKernel(v, x, r, n) <= 255 * WeightSum(r, n)
  {
    if n > 0 {
      PartialKernelBounds(v, x, r, n - 1);
      var w := Weight(r, n - 1 - r);
      var a := At(v, x + n - 1 - r);
      assert w >= 1;
      assert IsChannel(a) by { assert a == v[Clamp(x + n - 1 - r, |v| - 1)]; }
      MulBounds(w, a, 255);
    }
  }

  /** A kernel over channel values is at most 255 * (r + 1)^2, so it indexes
      the division table (of 256 * (r + 1)^2 entries) and its quotient is a
      channel value again. */
  lemma KernelBounds(v: seq<int>, x: int, r: nat)
    requires |v| > 0 && IsChannelLine(v)
    ensures 0 <= Kernel(v, x, r) < 256 * Divisor(r)
    ensures IsChannel(Blurred(v, x, r))
  {
    PartialKernelBounds(v, x, r, 2 * r + 1);
    WeightTotal(r);
    QuotientBelow(Kernel(v, x, r), Divisor(r), 256);
  }

  predicate IsUniform(v: seq<int>, c: int)
  {
    forall k :: 0 <= k < |v| ==> v[k] == c
  }

  lemma {:induction false} PartialKernelOfUniform(v: seq<int>, c: int, x: int, r: nat, n: nat)
    requires |v| > 0 && IsUniform(v, c)
    ensures PartialKernel(v, x, r, n) == c * WeightSum(r, n)
  {
    if n > 0 {
      PartialKernelOfUniform(v, c, x, r, n - 1);
      assert At(v, x + n - 1 - r) == c;
      MulAddRight(c, WeightSum(r, n - 1), Weight(r, n - 1 - r));
    }
  }

  /** On a line of one value c the kernel is c * (r + 1)^2. */
  lemma KernelOfUniform(v: seq<int>, c: int, x: int, r: nat)
    requires |v| > 0 && IsUniform(v, c)
    ensures Kernel(v, x, r) == c * Divisor(r)
    ensures Kernel(v, x, r) / Divisor(r) == c
  {
    PartialKernelOfUniform(v, c, x, r, 2 * r + 1);
    WeightTotal(r);
    MulDivCancel(c, Divisor(r));
  }

  // ---------------------------------------------------------------------
  // Arithmetic helpers
  // ---------------------------------------------------------------------

  lemma MulBounds(w: int, a: int, hi: int)
    requires w >= 0 && 0 <= a <= hi
    ensures 0 <= w * a <= hi * w
  {
    assert w * (hi - a) >= 0;
  }

  lemma MulAddRight(c: int, a: int, b: int)
    ensures c * (a + b) == c * a + b * c
  {
  }

  lemma QuotientBelow(k: int, d: int, n: int)
    requires d > 0 && 0 <= k < n * d
    ensures 0 <= k / d < n
  {
    assert (k / d) * d <= k;
    SampleSize.MulLtCancel(k / d, n, d);
  }

  lemma MulDivCancel(c: int, d: int)
    requires d > 0
    ensures (c * d) / d == c
  {
    var q := (c * d) / d;
    assert q * d <= c * d < q * d + d;
    SampleSize.MulLtCancel(q, c + 1, d);
    SampleSize.MulLtCancel(c, q + 1, d);
  }

  /** Row y of a row-major buffer of width w. */
  function Row(ch: seq<int>, w: nat, y: nat): (row: seq<int>)
    requires y * w + w <= |ch|
    ensures |row| == w
  {
    ch[y * w .. y * w + w]
  }

  /** Column x of a row-major buffer of h rows of width w. */
  function Column(ch: seq<int>, w: nat, h: nat, x: nat): (col: seq<int>)
    requires x < w && |ch| == w * h
    ensures |col| == h
  {
    ColumnIndices(x, w, h);
    seq(h, y requires 0 <= y < h => ch[y * w + x])
  }

  /** Row y of column x is the entry at y * w + x. */
  lemma ColumnAt(ch: seq<int>, w: nat, h: nat, x: nat, y: nat)
    requires x < w && |ch| == w * h && y < h
    ensures 0 <= y * w + x < |ch| && Column(ch, w, h, x)[y] == ch[y * w + x]
  {
    RowMajorIndex(y, x, w, h);
  }

  /** The columns of a channel buffer are channel lines. */
  lemma ColumnIsChannel(ch: seq<int>, w: nat, h: nat, x: nat)
    requires x < w && |ch| == w * h && IsChannelLine(ch)
    ensures IsChannelLine(Column(ch, w, h, x))
  {
    forall y | 0 <= y < h
      ensures IsChannel(Column(ch, w, h, x)[y])
    {
      ColumnAt(ch, w, h, x, y);
    }
  }

  /** The blurred channel value at x: the kernel divided by its total
      weight, rounding down. */
  function Blurred(v: seq<int>, x: int, r: nat): int
    requires |v| > 0
  {
    Kernel(v, x, r) / Divisor(r)
  }

  /** One line blurred: the kernel at every position, through the division
      table. */
  function BlurLine(v: seq<int>, r: nat): (out: seq<int>)
    requires |v| > 0
    ensures |out| == |v|
  {
    seq(|v|, x requires 0 <= x < |v| => Blurred(v, x, r))
  }

  /** The horizontal pass over the first n rows of a channel: each row is
      blurred on its own. */
  function HorizontalPass(ch: seq<int>, w: nat, n: nat, r: nat): (out: seq<int>)
    requires w > 0 && n * w <= |ch|
    ensures |out| == n * w
  {
    if n == 0 then []
    else
      assert (n - 1) * w + w == n * w;
      HorizontalPass(ch, w, n - 1, r) + BlurLine(Row(ch, w, n - 1), r)
  }

  lemma {:induction false} HorizontalPassAt(ch: seq<int>, w: nat, n: nat, r: nat, y: nat, x: nat)
    requires w > 0 && n * w <= |ch| && y < n && x < w
    ensures y * w + w <= |ch| && y * w + x < n * w
    ensures HorizontalPass(ch, w, n, r)[y * w + x] == Blurred(Row(ch, w, y), x, r)
  {
    RowMajorIndex(y, x, w, n);
    if y < n - 1 {
      HorizontalPassAt(ch, w, n - 1, r, y, x);
      RowMajorIndex(y, x, w, n - 1);
    } else {
      assert (n - 1) * w + w == n * w;
    }
  }

  /** The vertical pass at row y, column x. */
  function VerticalAt(ch: seq<int>, w: nat, h: nat, r: nat, y: nat, x: nat): int
    requires x < w && |ch| == w * h && y < h
  {
    Blurred(Column(ch, w, h, x), y, r)
  }

  lemma HorizontalPassIsChannel(ch: seq<int>, w: nat, h: nat, r: nat)
    requires w > 0 && |ch| == w * h && IsChannelLine(ch)
    ensures IsChannelLine(HorizontalPass(ch, w, h, r))
  {
    var out := HorizontalPass(ch, w, h, r);
    forall k | 0 <= k < |out|
      ensures IsChannel(out[k])
    {
      var y, x := k / w, k % w;
      assert k == y * w + x;
      RowMajorCoordinates(k, w, h);
      HorizontalPassAt(ch, w, h, r, y, x);
      KernelBounds(Row(ch, w, y), x, r);
    }
  }

  lemma VerticalAtIsChannel(ch: seq<int>, w: nat, h: nat, r: nat, y: nat, x: nat)
    requires x < w && |ch| == w * h && y < h && IsChannelLine(ch)
    ensures IsChannel(VerticalAt(ch, w, h, r, y, x))
  {
    ColumnIsChannel(ch, w, h, x);
    KernelBounds(Column(ch, w, h, x), y, r);
  }

  function Reds(p: seq<Pixel>): seq<int>
  {
    seq(|p|, k requires 0 <= k < |p| => Red(p[k]))
  }

  function Greens(p: seq<Pixel>): seq<int>
  {
    seq(|p|, k requires 0 <= k < |p| => Green(p[k]))
  }

  function Blues(p: seq<Pixel>): seq<int>
  {
    seq(|p|, k requires 0 <= k < |p| => Blue(p[k]))
  }

  /** The output pixel at row y, column x, given the horizontal pass of each
      channel: its own alpha byte, each colour channel the vertical pass of
      that channel. */
  function BlurredPixel(src: seq<Pixel>, hr: seq<int>, hg: seq<int>, hb: seq<int>,
                        w: nat, h: nat, r: nat, y: nat, x: nat): Pixel
    requires x < w && y < h && |src| == |hr| == |hg| == |hb| == w * h
    requires IsChannelLine(hr) && IsChannelLine(hg) && IsChannelLine(hb)
  {
    RowMajorIndex(y, x, w, h);
    VerticalAtIsChannel(hr, w, h, r, y, x);
    VerticalAtIsChannel(hg, w, h, r, y, x);
    VerticalAtIsChannel(hb, w, h, r, y, x);
    Pack(src[y * w + x], VerticalAt(hr, w, h, r, y, x), VerticalAt(hg, w, h, r, y, x),
         VerticalAt(hb, w, h, r, y, x))
  }

  /** The vertical pass over the horizontally blurred channels hr, hg and
      hb of the image src: every pixel becomes its BlurredPixel. */
  function VerticalPass(src: seq<Pixel>, hr: seq<int>, hg: seq<int>, hb: seq<int>,
                        w: nat, h: nat, r: nat): (out: seq<Pixel>)
    requires w > 0 && |src| == |hr| == |hg| == |hb| == w * h
    requires IsChannelLine(hr) && IsChannelLine(hg) && IsChannelLine(hb)
    ensures |out| == w * h
  {
    seq(w * h, k requires 0 <= k < w * h =>
      RowMajorCoordinates(k, w, h);
      BlurredPixel(src, hr, hg, hb, w, h, r, k / w, k % w))
  }

  /** Pixel (y, x) of the vertical pass: alpha from the source pixel, each
      colour channel the vertical kernel over column x of its channel. */
  lemma VerticalPassAt(src: seq<Pixel>, hr: seq<int>, hg: seq<int>, hb: seq<int>,
                       w: nat, h: nat, r: nat, y: nat, x: nat)
    requires w > 0 && |src| == |hr| == |hg| == |hb| == w * h && y < h && x < w
    requires IsChannelLine(hr) && IsChannelLine(hg) && IsChannelLine(hb)
    ensures 0 <= y * w + x < w * h
    ensures var out := VerticalPass(src, hr, hg, hb, w, h, r);
            && Alpha(out[y * w + x]) == Alpha(src[y * w + x])
            && Red(out[y * w + x]) == VerticalAt(hr, w, h, r, y, x)
            && Green(out[y * w + x]) == VerticalAt(hg, w, h, r, y, x)
            && Blue(out[y * w + x]) == VerticalAt(hb, w, h, r, y, x)
  {
    RowMajorIndex(y, x, w, h);
    RowMajorUnique(y, x, w);
  }

  /** Stack Blur of a w x h row-major image: the horizontal pass of each
      colour channel, then the vertical pass of the result, alpha kept. */
  function StackBlur(src: seq<Pixel>, w: nat, h: nat, r: nat): (out: seq<Pixel>)
    requires w > 0 && h > 0 && |src| == w * h
    ensures |out| == w * h
  {
    HorizontalPassIsChannel(Reds(src), w, h, r);
    HorizontalPassIsChannel(Greens(src), w, h, r);
    HorizontalPassIsChannel(Blues(src), w, h, r);
    VerticalPass(src, HorizontalPass(Reds(src), w, h, r), HorizontalPass(Greens(src), w, h, r),
                 HorizontalPass(Blues(src), w, h, r), w, h, r)
  }

  // ---------------------------------------------------------------------
  // Properties of the whole filter
  // ---------------------------------------------------------------------

  /** Pixel (y, x) of the blurred image: alpha from the source pixel, each
      colour channel the vertical triangular kernel over the column of the
      horizontally blurred channel. */
  lemma StackBlurAt(src: seq<Pixel>, w: nat, h: nat, r: nat, y: nat, x: nat)
    requires w > 0 && h > 0 && |src| == w * h && y < h && x < w
    ensures 0 <= y * w + x < w * h
    ensures var out := StackBlur(src, w, h, r);
            var hr := HorizontalPass(Reds(src), w, h, r);
            var hg := HorizontalPass(Greens(src), w, h, r);
            var hb := HorizontalPass(Blues(src), w, h, r);
            && Alpha(out[y * w + x]) == Alpha(src[y * w + x])
            && Red(out[y * w + x]) == VerticalAt(hr, w, h, r, y, x)
            && Green(out[y * w + x]) == VerticalAt(hg, w, h, r, y, x)
            && Blue(out[y * w + x]) == VerticalAt(hb, w, h, r, y, x)
  {
    var hr := HorizontalPass(Reds(src), w, h, r);
    var hg := HorizontalPass(Greens(src), w, h, r);
    var hb := HorizontalPass(Blues(src), w, h, r);
    HorizontalPassIsChannel(Reds(src), w, h, r);
    HorizontalPassIsChannel(Greens(src), w, h, r);
    HorizontalPassIsChannel(Blues(src), w, h, r);
    VerticalPassAt(src, hr, hg, hb, w, h, r, y, x);
  }

  /** The alpha byte of every pixel is left as it was. */
  lemma StackBlurPreservesAlpha(src: seq<Pixel>, w: nat, h: nat, r: nat)
    requires w > 0 && h > 0 && |src| == w * h
    ensures forall k :: 0 <= k < w * h ==> Alpha(StackBlur(src, w, h, r)[k]) == Alpha(src[k])
  {
    forall k | 0 <= k < w * h
      ensures Alpha(StackBlur(src, w, h, r)[k]) == Alpha(src[k])
    {
      RowMajorCoordinates(k, w, h);
      StackBlurAt(src, w, h, r, k / w, k % w);
    }
  }

  lemma HorizontalPassOfUniform(ch: seq<int>, w: nat, h: nat, r: nat, c: int)
    requires w > 0 && |ch| == w * h && IsUniform(ch, c)
    ensures IsUniform(HorizontalPass(ch, w, h, r), c)
  {
    var out := HorizontalPass(ch, w, h, r);
    forall k | 0 <= k < |out|
      ensures out[k] == c
    {
      var y, x := k / w, k % w;
      RowMajorCoordinates(k, w, h);
      HorizontalPassAt(ch, w, h, r, y, x);
      KernelOfUniform(Row(ch, w, y), c, x, r);
    }
  }

  lemma VerticalAtOfUniform(ch: seq<int>, w: nat, h: nat, r: nat, c: int, y: nat, x: nat)
    requires x < w && |ch| == w * h && y < h && IsUniform(ch, c)
    ensures VerticalAt(ch, w, h, r, y, x) == c
  {
    forall j | 0 <= j < h
      ensures Column(ch, w, h, x)[j] == c
    {
      ColumnAt(ch, w, h, x, j);
    }
    KernelOfUniform(Column(ch, w, h, x), c, y, r);
  }

  /** The pixels of an image all have the colour of p. */
  ghost predicate HasUniformColour(src: seq<Pixel>, p: Pixel)
  {
    forall k :: 0 <= k < |src| ==> Red(src[k]) == Red(p) && Green(src[k]) == Green(p) && Blue(src[k]) == Blue(p)
  }

  lemma UniformColourPixelUnchanged(src: seq<Pixel>, w: nat, h: nat, r: nat, p: Pixel, y: nat, x: nat)
    requires w > 0 && h > 0 && |src| == w * h && y < h && x < w
    requires HasUniformColour(src, p)
    ensures 0 <= y * w + x < w * h
    ensures StackBlur(src, w, h, r)[y * w + x] == src[y * w + x]
  {
    var hr := HorizontalPass(Reds(src), w, h, r);
    var hg := HorizontalPass(Greens(src), w, h, r);
    var hb := HorizontalPass(Blues(src), w, h, r);
    assert IsUniform(Reds(src), Red(p));
    assert IsUniform(Greens(src), Green(p));
    assert IsUniform(Blues(src), Blue(p));
    HorizontalPassOfUniform(Reds(src), w, h, r, Red(p));
    HorizontalPassOfUniform(Greens(src), w, h, r, Green(p));
    HorizontalPassOfUniform(Blues(src), w, h, r, Blue(p));
    StackBlurAt(src, w, h, r, y, x);
    VerticalAtOfUniform(hr, w, h, r, Red(p), y, x);
    VerticalAtOfUniform(hg, w, h, r, Green(p), y, x);
    VerticalAtOfUniform(hb, w, h, r, Blue(p), y, x);
    PixelFromChannels(StackBlur(src, w, h, r)[y * w + x], src[y * w + x]);
  }

  /** An image whose pixels all have the same colour (whatever their alpha)
      is a fixed point of the filter. */
  lemma StackBlurOfUniformColour(src: seq<Pixel>, w: nat, h: nat, r: nat, p: Pixel)
    requires w > 0 && h > 0 && |src| == w * h
    requires HasUniformColour(src, p)
    ensures StackBlur(src, w, h, r) == src
  {
    var out := StackBlur(src, w, h, r);
    forall k | 0 <= k < w * h
      ensures out[k] == src[k]
    {
      RowMajorCoordinates(k, w, h);
      UniformColourPixelUnchanged(src, w, h, r, p, k / w, k % w);
    }
  }
}
