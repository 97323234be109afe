/** fastblur: Mario Klingemann's Stack Blur over the pixel buffer of a
    bitmap, as BitmapUtils runs it. A horizontal pass writes the blurred
    colour channels of every row into the int buffers r, g and b; a
    vertical pass blurs their columns back into the pixel buffer, keeping
    each pixel's alpha byte. Both passes keep a ring buffer (`stack`) of the
    2r + 1 samples under the kernel and three running sums per channel, and
    turn sums into channel values through the division table `dv`.

    Each method proves that the buffers it writes equal the specification
    of StackBlurSpec: the running sums are the triangular kernel sums. */
module StackBlur {
  import opened Argb
  import opened Bitmaps
  import opened StackBlurSpec
  import SampleSize

  /** The largest radius for which the division table, 256 * (radius + 1)^2
      entries, and every running sum fit in a Java `int`. */
  const MaxRadius: int := 2895

  // ---------------------------------------------------------------------
  // The ring buffer
  // ---------------------------------------------------------------------

  lemma ModUnique(a: int, d: int, q: int, m: int)
    requires d > 0 && 0 <= m < d && a == q * d + m
    ensures a % d == m
  {
    var q', m' := a / d, a % d;
    assert (q - q') * d == m' - m;
    SampleSize.MulLtCancel(q - q', 1, d);
    SampleSize.MulLtCancel(-1, q - q', d);
  }

  /** The slot after s in a ring of div slots: `(s + 1) % div`. */
  function NextSlot(s: int, div: int): (n: int)
    requires 0 <= s < div
    ensures 0 <= n < div
  {
    if s + 1 == div then 0 else s + 1
  }

  lemma NextSlotIsMod(s: int, div: int)
    requires 0 <= s < div
    ensures NextSlot(s, div) == (s + 1) % div
  {
    ModUnique(s + 1, div, if s + 1 == div then 1 else 0, NextSlot(s, div));
  }

  /** One row of the stack, the `int[3]` that the Java code calls `sir`:
      the red, green and blue samples of one pixel. */
  datatype Rgb = Rgb(red: int, green: int, blue: int)

  /** The sample slot s holds when the window centred at x starts in slot
      `first`. */
  function SlotSample(v: seq<int>, x: int, r: nat, first: int, s: int): int
    requires |v| > 0
  {
    At(v, x - r + s - first + (if s < first then 2 * r + 1 else 0))
  }

  /** The samples of the three lines at position j. */
  function SamplesAt(vr: seq<int>, vg: seq<int>, vb: seq<int>, j: int): Rgb
    requires |vr| > 0 && |vg| > 0 && |vb| > 0
  {
    Rgb(At(vr, j), At(vg, j), At(vb, j))
  }

  /** The stack row slot s holds when the window centred at x starts in slot
      `first`. */
  function SlotEntry(vr: seq<int>, vg: seq<int>, vb: seq<int>, x: int, r: nat, first: int, s: int): Rgb
    requires |vr| > 0 && |vg| > 0 && |vb| > 0
  {
    Rgb(SlotSample(vr, x, r, first, s), SlotSample(vg, x, r, first, s), SlotSample(vb, x, r, first, s))
  }

  /** The stack holds the window of the lines vr, vg and vb centred at x,
      its left end x - r in slot `first`: slot s holds the samples at offset
      s - first from x - r, counted around the ring. */
  ghost predicate WindowHeld(stack: seq<Rgb>, vr: seq<int>, vg: seq<int>, vb: seq<int>,
                             x: int, r: nat, first: int)
    requires |vr| > 0 && |vg| > 0 && |vb| > 0
  {
    |stack| == 2 * r + 1 && 0 <= first < 2 * r + 1
    && forall s :: 0 <= s < 2 * r + 1 ==> stack[s] == SlotEntry(vr, vg, vb, x, r, first, s)
  }

  /** The centre slot: stackpointer is r slots after the window's first slot. */
  predicate CentreSlot(stackpointer: int, first: int, r: nat)
  {
    stackpointer == first + r || stackpointer == first + r - (2 * r + 1)
  }

  /** The leaving samples of the window centred at x, at x - r, are in slot
      `(stackpointer - r + div) % div` (the Java `stackstart % div`), which
      is the window's first slot. */
  lemma LeavingSlot(stack: seq<Rgb>, vr: seq<int>, vg: seq<int>, vb: seq<int>,
                    x: int, r: nat, div: int, first: int, stackpointer: int)
    requires |vr| > 0 && |vg| > 0 && |vb| > 0 && div == 2 * r + 1
    requires WindowHeld(stack, vr, vg, vb, x, r, first) && 0 <= stackpointer < div
    requires CentreSlot(stackpointer, first, r)
    ensures (stackpointer - r + div) % div == first
    ensures stack[first] == SamplesAt(vr, vg, vb, x - r)
  {
    var stackstart := stackpointer - r + div;
    ModUnique(stackstart, div, if stackstart < div then 0 else 1, first);
    assert stack[first] == SlotEntry(vr, vg, vb, x, r, first, first);
  }

  /** As the window slides from x to x + 1 its first slot moves on by one:
      every slot keeps its sample except the old first slot, which is to
      hold the entering sample at x + r + 1. */
  lemma SlotShift(v: seq<int>, x: int, r: nat, first: int, s: int)
    requires |v| > 0 && 0 <= first < 2 * r + 1 && 0 <= s < 2 * r + 1
    ensures SlotSample(v, x + 1, r, NextSlot(first, 2 * r + 1), s)
            == if s == first then At(v, x + r + 1) else SlotSample(v, x, r, first, s)
  {
  }

  /** Putting the entering samples, at x + r + 1, in the first slot turns
      the stack into the window centred at x + 1, which starts one slot
      later. */
  lemma SlideWindow(stack: seq<Rgb>, vr: seq<int>, vg: seq<int>, vb: seq<int>,
                    x: int, r: nat, div: int, first: int, e: Rgb)
    requires |vr| > 0 && |vg| > 0 && |vb| > 0 && div == 2 * r + 1
    requires WindowHeld(stack, vr, vg, vb, x, r, first)
    requires e == SamplesAt(vr, vg, vb, x + r + 1)
    ensures WindowHeld(stack[first := e], vr, vg, vb, x + 1, r, NextSlot(first, div))
  {
    var stack' := stack[first := e];
    var first' := NextSlot(first, div);
    forall s | 0 <= s < div
      ensures stack'[s] == SlotEntry(vr, vg, vb, x + 1, r, first', s)
    {
      SlotShift(vr, x, r, first, s);
      SlotShift(vg, x, r, first, s);
      SlotShift(vb, x, r, first, s);
    }
  }

  /** After the slide, the slot after the old centre, `(stackpointer + 1) %
      div`, is the centre of the window centred at x and holds its centre
      samples. */
  lemma NextCentre(stack: seq<Rgb>, vr: seq<int>, vg: seq<int>, vb: seq<int>,
                   x: int, r: nat, div: int, first: int, stackpointer: int)
    requires |vr| > 0 && |vg| > 0 && |vb| > 0 && div == 2 * r + 1
    requires 0 <= first < div && WindowHeld(stack, vr, vg, vb, x, r, NextSlot(first, div))
    requires 0 <= stackpointer < div && CentreSlot(stackpointer, first, r)
    ensures var next := (stackpointer + 1) % div;
            0 <= next < div && next % div == next && CentreSlot(next, NextSlot(first, div), r)
            && stack[next] == SamplesAt(vr, vg, vb, x)
  {
    var next := NextSlot(stackpointer, div);
    NextSlotIsMod(stackpointer, div);
    ModUnique(next, div, 0, next);
    assert stack[next] == SlotEntry(vr, vg, vb, x, r, NextSlot(first, div), next);
  }

  // ---------------------------------------------------------------------
  // The division table
  // ---------------------------------------------------------------------

  /** `dv[i] = i / divsum` for every i below 256 * divsum. */
  method BuildDivisionTable(divsum: int) returns (dv: array<int>)
    requires 1 <= divsum && 256 * divsum <= SampleSize.IntMax
    ensures fresh(dv)
    ensures dv.Length == 256 * divsum
    ensures forall i :: 0 <= i < dv.Length ==> dv[i] == i / divsum
  {
    dv := new int[256 * divsum];
    var i := 0;
    while i < 256 * divsum
      invariant 0 <= i <= 256 * divsum
      invariant forall j :: 0 <= j < i ==> dv[j] == j / divsum
    {
      dv[i] := i / divsum;
      i := i + 1;
    }
  }

  /** dv is the division table of the kernel of the given radius. */
  ghost predicate DivisionTable(dv: array<int>, radius: nat)
    reads dv
  {
    dv.Length == 256 * Divisor(radius) && forall i :: 0 <= i < dv.Length ==> dv[i] == i / Divisor(radius)
  }

  // ---------------------------------------------------------------------
  // Horizontal pass
  // ---------------------------------------------------------------------

  /** orig with the entries from yw on replaced by line. */
  function Spliced(orig: seq<int>, yw: int, line: seq<int>): (s: seq<int>)
    requires 0 <= yw && yw + |line| <= |orig|
    ensures |s| == |orig|
  {
    orig[..yw] + line + orig[yw + |line|..]
  }

  /** out holds orig with its first n entries from yw on replaced by the
      blurred values of line v at 0..n-1. */
  ghost predicate RowProgress(out: seq<int>, orig: seq<int>, yw: int, v: seq<int>, r: nat, n: int)
    requires |v| > 0
  {
    |orig| == |out| && 0 <= yw && 0 <= n <= |v| && yw + |v| <= |out|
    && forall k :: 0 <= k < |out| ==>
         out[k] == (if yw <= k < yw + n then Blurred(v, k - yw, r) else orig[k])
  }

  lemma RowProgressDone(out: seq<int>, orig: seq<int>, yw: int, v: seq<int>, r: nat)
    requires |v| > 0 && RowProgress(out, orig, yw, v, r, |v|)
    ensures out == Spliced(orig, yw, BlurLine(v, r))
  {
    var line := BlurLine(v, r);
    forall k | 0 <= k < |out|
      ensures out[k] == Spliced(orig, yw, line)[k]
    {
      if yw <= k < yw + |v| {
        assert Spliced(orig, yw, line)[k] == line[k - yw];
      } else if k < yw {
        assert Spliced(orig, yw, line)[k] == orig[..yw][k];
      } else {
        assert Spliced(orig, yw, line)[k] == orig[yw + |line|..][k - yw - |line|];
      }
    }
  }

  /** The division table and the channel buffers are distinct arrays. */
  ghost predicate TableAndChannelsDistinct(dv: array<int>, r: array<int>, g: array<int>, b: array<int>)
  {
    dv != r && dv != g && dv != b && r != g && r != b && g != b
  }

  /** The int buffers of fastblur are distinct arrays: the division table,
      vmin and the channel buffers r, g and b. */
  ghost predicate Distinct(dv: array<int>, vmin: array<int>, r: array<int>, g: array<int>, b: array<int>)
  {
    dv != vmin && dv != r && dv != g && dv != b
    && vmin != r && vmin != g && vmin != b
    && r != g && r != b && g != b
  }

  /** vr, vg and vb are the red, green and blue samples of the w pixels of
      pix from index yw on. */
  ghost predicate RowSamples(vr: seq<int>, vg: seq<int>, vb: seq<int>, pix: seq<Pixel>, yw: int, w: int)
  {
    |vr| == w && |vg| == w && |vb| == w && 0 <= yw && yw + w <= |pix|
    && forall k :: yw <= k < yw + w ==>
         vr[k - yw] == Red(pix[k]) && vg[k - yw] == Green(pix[k]) && vb[k - yw] == Blue(pix[k])
  }

  lemma RowSamplesOfImage(pix: seq<Pixel>, w: nat, h: nat, y: nat)
    requires w > 0 && y < h && |pix| == w * h
    ensures y * w + w <= |pix|
    ensures RowSamples(Row(Reds(pix), w, y), Row(Greens(pix), w, y), Row(Blues(pix), w, y), pix, y * w, w)
  {
    RowMajorIndex(y, 0, w, h);
  }

  /** The clamped sample j of the row is the pixel at the clamped column. */
  lemma RowSampleAt(vr: seq<int>, vg: seq<int>, vb: seq<int>, pix: seq<Pixel>, yw: int, w: int, j: int, p: Pixel)
    requires 1 <= w && RowSamples(vr, vg, vb, pix, yw, w)
    requires p == pix[yw + Clamp(j, w - 1)]
    ensures Rgb(Red(p), Green(p), Blue(p)) == SamplesAt(vr, vg, vb, j)
  {
  }

  /** The samples of a row are channel values. */
  lemma RowSamplesAreChannels(vr: seq<int>, vg: seq<int>, vb: seq<int>, pix: seq<Pixel>, yw: int, w: int)
    requires RowSamples(vr, vg, vb, pix, yw, w)
    ensures IsChannelLine(vr) && IsChannelLine(vg) && IsChannelLine(vb)
  {
    forall j | 0 <= j < w
      ensures IsChannel(vr[j]) && IsChannel(vg[j]) && IsChannel(vb[j])
    {
      var p := pix[yw + j];
      assert vr[j] == Red(p) && vg[j] == Green(p) && vb[j] == Blue(p);
    }
  }

  /** Writing the blurred value of column n extends the written part of the
      row by one. */
  lemma RowProgressStep(out: seq<int>, orig: seq<int>, yw: int, v: seq<int>, r: nat, n: int)
    requires |v| > 0 && RowProgress(out, orig, yw, v, r, n) && n < |v|
    ensures 0 <= yw + n < |out|
    ensures RowProgress(out[yw + n := Blurred(v, n, r)], orig, yw, v, r, n + 1)
  {
    var out' := out[yw + n := Blurred(v, n, r)];
    forall k | 0 <= k < |out'|
      ensures out'[k] == (if yw <= k < yw + n + 1 then Blurred(v, k - yw, r) else orig[k])
    {
      if k != yw + n {
        assert out'[k] == out[k];
      }
    }
  }

  /** The running kernel sum indexes the division table, which yields the
      blurred value. */
  lemma TableLookup(dv: array<int>, radius: nat, v: seq<int>, x: int, sum: int)
    requires DivisionTable(dv, radius) && |v| > 0 && IsChannelLine(v) && sum == Kernel(v, x, radius)
    ensures 0 <= sum < dv.Length && dv[sum] == Blurred(v, x, radius)
  {
    KernelBounds(v, x, radius);
  }

  /** The first i + radius slots of the stack hold the samples at -radius
      up to i - 1, clamped at the left edge: the window centred at 0 as far
      as it is loaded. */
  ghost predicate Loaded(stack: seq<Rgb>, vr: seq<int>, vg: seq<int>, vb: seq<int>, radius: nat, n: int)
    requires |vr| > 0 && |vg| > 0 && |vb| > 0
  {
    0 <= n <= |stack| && forall s :: 0 <= s < n ==> stack[s] == SlotEntry(vr, vg, vb, 0, radius, 0, s)
  }

  /** One step of the first loop of a row: the samples sir of offset i go
      into slot i + radius and into the sums, weighted radius + 1 - |i|. */
  method LoadSlot(stack: array<Rgb>, radius: int, i: int, sir: Rgb,
                  rsum: int, gsum: int, bsum: int, rinsum: int, ginsum: int, binsum: int,
                  routsum: int, goutsum: int, boutsum: int,
                  ghost vr: seq<int>, ghost vg: seq<int>, ghost vb: seq<int>)
      returns (rsum': int, gsum': int, bsum': int, rinsum': int, ginsum': int, binsum': int,
               routsum': int, goutsum': int, boutsum': int)
    requires 1 <= radius && -radius <= i <= radius && stack.Length == 2 * radius + 1
    requires |vr| > 0 && |vg| > 0 && |vb| > 0
    requires sir == SamplesAt(vr, vg, vb, i)
    requires Loaded(stack[..], vr, vg, vb, radius, i + radius)
    requires Loading(vr, radius, i, rsum, rinsum, routsum)
    requires Loading(vg, radius, i, gsum, ginsum, goutsum)
    requires Loading(vb, radius, i, bsum, binsum, boutsum)
    modifies stack
    ensures Loaded(stack[..], vr, vg, vb, radius, i + radius + 1)
    ensures Loading(vr, radius, i + 1, rsum', rinsum', routsum')
    ensures Loading(vg, radius, i + 1, gsum', ginsum', goutsum')
    ensures Loading(vb, radius, i + 1, bsum', binsum', boutsum')
  {
    LoadStep(vr, radius, i, rsum, rinsum, routsum);
    LoadStep(vg, radius, i, gsum, ginsum, goutsum);
    LoadStep(vb, radius, i, bsum, binsum, boutsum);
    assert SlotEntry(vr, vg, vb, 0, radius, 0, i + radius) == sir;
    stack[i + radius] := sir;
    var rbs := radius + 1 - Abs(i);
    rsum' := rsum + sir.red * rbs;
    gsum' := gsum + sir.green * rbs;
    bsum' := bsum + sir.blue * rbs;
    rinsum', ginsum', binsum' := rinsum, ginsum, binsum;
    routsum', goutsum', boutsum' := routsum, goutsum, boutsum;
    if i > 0 {
      rinsum' := rinsum + sir.red;
      ginsum' := ginsum + sir.green;
      binsum' := binsum + sir.blue;
    } else {
      routsum' := routsum + sir.red;
      goutsum' := goutsum + sir.green;
      boutsum' := boutsum + sir.blue;
    }
  }

  /** The first loop of a row: load the window centred at column 0, clamped
      at the left edge, into the stack and the running sums. */
  method LoadRowWindow(pix: array<Pixel>, w: int, yw: int, radius: int, stack: array<Rgb>,
                       ghost vr: seq<int>, ghost vg: seq<int>, ghost vb: seq<int>)
      returns (rinsum: int, ginsum: int, binsum: int, routsum: int, goutsum: int, boutsum: int,
               rsum: int, gsum: int, bsum: int)
    requires 1 <= w && 1 <= radius && RowSamples(vr, vg, vb, pix[..], yw, w)
    requires stack.Length == 2 * radius + 1
    modifies stack
    ensures Running(vr, 0, radius, rsum, rinsum, routsum)
    ensures Running(vg, 0, radius, gsum, ginsum, goutsum)
    ensures Running(vb, 0, radius, bsum, binsum, boutsum)
    ensures WindowHeld(stack[..], vr, vg, vb, 0, radius, 0)
  {
    ghost var image := pix[..];
    var wm := w - 1;
    rinsum, ginsum, binsum := 0, 0, 0;
    routsum, goutsum, boutsum := 0, 0, 0;
    rsum, gsum, bsum := 0, 0, 0;
    var i := -radius;
    while i <= radius
      invariant -radius <= i <= radius + 1
      invariant Loaded(stack[..], vr, vg, vb, radius, i + radius)
      invariant Loading(vr, radius, i, rsum, rinsum, routsum)
      invariant Loading(vg, radius, i, gsum, ginsum, goutsum)
      invariant Loading(vb, radius, i, bsum, binsum, boutsum)
    {
      var p := pix[yw + Min(wm, SampleSize.Max(i, 0))];
      RowSampleAt(vr, vg, vb, image, yw, w, i, p);
      rsum, gsum, bsum, rinsum, ginsum, binsum, routsum, goutsum, boutsum :=
        LoadSlot(stack, radius, i, Rgb(Red(p), Green(p), Blue(p)),
                 rsum, gsum, bsum, rinsum, ginsum, binsum, routsum, goutsum, boutsum, vr, vg, vb);
      i := i + 1;
    }
    LoadDone(vr, radius, rsum, rinsum, routsum);
    LoadDone(vg, radius, gsum, ginsum, goutsum);
    LoadDone(vb, radius, bsum, binsum, boutsum);
  }

  /** Writes the blurred channels of column x of a row: the division table
      turns each window sum into its average. */
  method EmitRowColumn(dv: array<int>, radius: int, r: array<int>, g: array<int>, b: array<int>,
                       yi: int, rsum: int, gsum: int, bsum: int,
                       ghost vr: seq<int>, ghost vg: seq<int>, ghost vb: seq<int>, ghost x: int,
                       ghost yw: int, ghost r0: seq<int>, ghost g0: seq<int>, ghost b0: seq<int>)
    requires 1 <= radius && DivisionTable(dv, radius) && TableAndChannelsDistinct(dv, r, g, b)
    requires IsChannelLine(vr) && IsChannelLine(vg) && IsChannelLine(vb)
    requires 0 <= x < |vr| && x < |vg| && x < |vb| && yi == yw + x
    requires rsum == Kernel(vr, x, radius) && gsum == Kernel(vg, x, radius) && bsum == Kernel(vb, x, radius)
    requires RowProgress(r[..], r0, yw, vr, radius, x)
    requires RowProgress(g[..], g0, yw, vg, radius, x)
    requires RowProgress(b[..], b0, yw, vb, radius, x)
    modifies r, g, b
    ensures RowProgress(r[..], r0, yw, vr, radius, x + 1)
    ensures RowProgress(g[..], g0, yw, vg, radius, x + 1)
    ensures RowProgress(b[..], b0, yw, vb, radius, x + 1)
  {
    TableLookup(dv, radius, vr, x, rsum);
    TableLookup(dv, radius, vg, x, gsum);
    TableLookup(dv, radius, vb, x, bsum);
    RowProgressStep(r[..], r0, yw, vr, radius, x);
    RowProgressStep(g[..], g0, yw, vg, radius, x);
    RowProgressStep(b[..], b0, yw, vb, radius, x);
    r[yi] := dv[rsum];
    g[yi] := dv[gsum];
    b[yi] := dv[bsum];
  }

  /** The first half of a slide: each sum drops its left half, and each left
      half drops the leaving samples, read from the window's first slot
      `stackstart % div`. */
  method ReleaseLeaving(stack: array<Rgb>, radius: int, stackstart: int,
                        rsum: int, gsum: int, bsum: int, routsum: int, goutsum: int, boutsum: int,
                        ghost vr: seq<int>, ghost vg: seq<int>, ghost vb: seq<int>,
                        ghost x: int, ghost first: int, ghost stackpointer: int)
      returns (rsum': int, gsum': int, bsum': int, routsum': int, goutsum': int, boutsum': int)
    requires 1 <= radius && |vr| > 0 && |vg| > 0 && |vb| > 0
    requires WindowHeld(stack[..], vr, vg, vb, x, radius, first)
    requires 0 <= stackpointer < 2 * radius + 1 && CentreSlot(stackpointer, first, radius)
    requires stackstart == stackpointer - radius + 2 * radius + 1
    ensures rsum' == rsum - routsum && routsum' == routsum - At(vr, x - radius)
    ensures gsum' == gsum - goutsum && goutsum' == goutsum - At(vg, x - radius)
    ensures bsum' == bsum - boutsum && boutsum' == boutsum - At(vb, x - radius)
  {
    var div := 2 * radius + 1;
    rsum' := rsum - routsum;
    gsum' := gsum - goutsum;
    bsum' := bsum - boutsum;

    LeavingSlot(stack[..], vr, vg, vb, x, radius, div, first, stackpointer);
    var sir := stack[stackstart % div];

    routsum' := routsum - sir.red;
    goutsum' := goutsum - sir.green;
    boutsum' := boutsum - sir.blue;
  }

  /** The entering samples take the leaving samples' slot
      `stackstart % div`, the window's first slot: the stack now holds the
      window centred at x + 1, which starts one slot later. */
  method PutEntering(stack: array<Rgb>, radius: int, stackstart: int, stackpointer: int, sir: Rgb,
                     ghost vr: seq<int>, ghost vg: seq<int>, ghost vb: seq<int>,
                     ghost x: int, ghost first: int)
    requires 1 <= radius && |vr| > 0 && |vg| > 0 && |vb| > 0
    requires WindowHeld(stack[..], vr, vg, vb, x, radius, first)
    requires 0 <= stackpointer < 2 * radius + 1 && CentreSlot(stackpointer, first, radius)
    requires stackstart == stackpointer - radius + 2 * radius + 1
    requires sir == SamplesAt(vr, vg, vb, x + radius + 1)
    modifies stack
    ensures WindowHeld(stack[..], vr, vg, vb, x + 1, radius, NextSlot(first, 2 * radius + 1))
  {
    var div := 2 * radius + 1;
    ghost var ring := stack[..];
    LeavingSlot(ring, vr, vg, vb, x, radius, div, first, stackpointer);
    SlideWindow(ring, vr, vg, vb, x, radius, div, first, sir);
    stack[stackstart % div] := sir;
  }

  /** The centre moves one slot on, to `(stackpointer + 1) % div`, which
      holds the centre samples of the window centred at x + 1. */
  method MoveCentre(stack: array<Rgb>, radius: int, stackpointer: int,
                    ghost vr: seq<int>, ghost vg: seq<int>, ghost vb: seq<int>,
                    ghost x: int, ghost first: int)
      returns (stackpointer': int, centre: Rgb)
    requires 1 <= radius && |vr| > 0 && |vg| > 0 && |vb| > 0 && 0 <= first < 2 * radius + 1
    requires WindowHeld(stack[..], vr, vg, vb, x + 1, radius, NextSlot(first, 2 * radius + 1))
    requires 0 <= stackpointer < 2 * radius + 1 && CentreSlot(stackpointer, first, radius)
    ensures 0 <= stackpointer' < 2 * radius + 1
    ensures CentreSlot(stackpointer', NextSlot(first, 2 * radius + 1), radius)
    ensures centre == SamplesAt(vr, vg, vb, x + 1)
  {
    var div := 2 * radius + 1;
    NextCentre(stack[..], vr, vg, vb, x + 1, radius, div, first, stackpointer);
    stackpointer' := (stackpointer + 1) % div;
    centre := stack[stackpointer' % div];
  }

  /** The second half of a slide: the entering samples take the leaving
      samples' slot and join the right halves and the sums; the centre moves
      one slot on, and its samples move from the right halves to the left. */
  method TakeEntering(stack: array<Rgb>, radius: int, stackstart: int, stackpointer: int, sir: Rgb,
                      rsum: int, gsum: int, bsum: int, rinsum: int, ginsum: int, binsum: int,
                      routsum: int, goutsum: int, boutsum: int,
                      ghost vr: seq<int>, ghost vg: seq<int>, ghost vb: seq<int>,
                      ghost x: int, ghost first: int)
      returns (rsum': int, gsum': int, bsum': int, rinsum': int, ginsum': int, binsum': int,
               routsum': int, goutsum': int, boutsum': int, stackpointer': int)
    requires 1 <= radius && |vr| > 0 && |vg| > 0 && |vb| > 0
    requires WindowHeld(stack[..], vr, vg, vb, x, radius, first)
    requires 0 <= stackpointer < 2 * radius + 1 && CentreSlot(stackpointer, first, radius)
    requires stackstart == stackpointer - radius + 2 * radius + 1
    requires sir == SamplesAt(vr, vg, vb, x + radius + 1)
    modifies stack
    ensures WindowHeld(stack[..], vr, vg, vb, x + 1, radius, NextSlot(first, 2 * radius + 1))
    ensures 0 <= stackpointer' < 2 * radius + 1
    ensures CentreSlot(stackpointer', NextSlot(first, 2 * radius + 1), radius)
    ensures rinsum' == rinsum + sir.red - At(vr, x + 1) && rsum' == rsum + rinsum + sir.red
    ensures ginsum' == ginsum + sir.green - At(vg, x + 1) && gsum' == gsum + ginsum + sir.green
    ensures binsum' == binsum + sir.blue - At(vb, x + 1) && bsum' == bsum + binsum + sir.blue
    ensures routsum' == routsum + At(vr, x + 1) && goutsum' == goutsum + At(vg, x + 1)
    ensures boutsum' == boutsum + At(vb, x + 1)
  {
    PutEntering(stack, radius, stackstart, stackpointer, sir, vr, vg, vb, x, first);

    rinsum' := rinsum + sir.red;
    ginsum' := ginsum + sir.green;
    binsum' := binsum + sir.blue;

    rsum' := rsum + rinsum';
    gsum' := gsum + ginsum';
    bsum' := bsum + binsum';

    var centre;
    stackpointer', centre := MoveCentre(stack, radius, stackpointer, vr, vg, vb, x, first);

    routsum' := routsum + centre.red;
    goutsum' := goutsum + centre.green;
    boutsum' := boutsum + centre.blue;

    rinsum' := rinsum' - centre.red;
    ginsum' := ginsum' - centre.green;
    binsum' := binsum' - centre.blue;
  }

  /** vmin[k] = min(k + radius + 1, w - 1), the column of the sample that
      enters the window as it slides past k, for every k below n. */
  ghost predicate EnteringColumns(vmin: array<int>, w: int, radius: int, n: int)
    reads vmin
  {
    0 <= n <= vmin.Length && forall k :: 0 <= k < n ==> vmin[k] == Min(k + radius + 1, w - 1)
  }

  /** The column of the sample entering the window as it slides past x:
      the first row computes min(x + radius + 1, w - 1) into vmin[x], the
      later rows read it back. */
  method EnteringColumn(vmin: array<int>, w: int, y: int, radius: int, x: int) returns (c: int)
    requires 0 <= x < w <= vmin.Length && 0 <= y && 0 <= radius
    requires EnteringColumns(vmin, w, radius, if y == 0 then x else w)
    modifies vmin
    ensures c == Clamp(x + radius + 1, w - 1)
    ensures EnteringColumns(vmin, w, radius, if y == 0 then x + 1 else w)
  {
    if y == 0 {
      vmin[x] := Min(x + radius + 1, w - 1);
    }
    c := vmin[x];
  }

  /** The slide of a row's window from column x to x + 1: take the leaving
      samples out of the stack and the sums, and put the entering ones,
      from column min(x + radius + 1, w - 1), in. */
  method SlideRowWindow(pix: array<Pixel>, w: int, y: int, yw: int, radius: int,
                        stack: array<Rgb>, vmin: array<int>, x: int, stackpointer: int,
                        rsum: int, gsum: int, bsum: int, rinsum: int, ginsum: int, binsum: int,
                        routsum: int, goutsum: int, boutsum: int,
                        ghost vr: seq<int>, ghost vg: seq<int>, ghost vb: seq<int>, ghost first: int)
      returns (rsum': int, gsum': int, bsum': int, rinsum': int, ginsum': int, binsum': int,
               routsum': int, goutsum': int, boutsum': int, stackpointer': int)
    requires 1 <= radius && 0 <= y && 0 <= x < w <= vmin.Length
    requires RowSamples(vr, vg, vb, pix[..], yw, w)
    requires 0 <= stackpointer < 2 * radius + 1 && CentreSlot(stackpointer, first, radius)
    requires WindowHeld(stack[..], vr, vg, vb, x, radius, first)
    requires Running(vr, x, radius, rsum, rinsum, routsum)
    requires Running(vg, x, radius, gsum, ginsum, goutsum)
    requires Running(vb, x, radius, bsum, binsum, boutsum)
    requires EnteringColumns(vmin, w, radius, if y == 0 then x else w)
    modifies stack, vmin
    ensures 0 <= stackpointer' < 2 * radius + 1
    ensures CentreSlot(stackpointer', NextSlot(first, 2 * radius + 1), radius)
    ensures WindowHeld(stack[..], vr, vg, vb, x + 1, radius, NextSlot(first, 2 * radius + 1))
    ensures Running(vr, x + 1, radius, rsum', rinsum', routsum')
    ensures Running(vg, x + 1, radius, gsum', ginsum', goutsum')
    ensures Running(vb, x + 1, radius, bsum', binsum', boutsum')
    ensures EnteringColumns(vmin, w, radius, if y == 0 then x + 1 else w)
  {
    ghost var image := pix[..];
    var div := 2 * radius + 1;
    SlideStep(vr, x, radius, rsum, rinsum, routsum);
    SlideStep(vg, x, radius, gsum, ginsum, goutsum);
    SlideStep(vb, x, radius, bsum, binsum, boutsum);

    var stackstart := stackpointer - radius + div;
    rsum', gsum', bsum', routsum', goutsum', boutsum' :=
      ReleaseLeaving(stack, radius, stackstart, rsum, gsum, bsum, routsum, goutsum, boutsum,
                     vr, vg, vb, x, first, stackpointer);

    var c := EnteringColumn(vmin, w, y, radius, x);
    var p := pix[yw + c];
    RowSampleAt(vr, vg, vb, image, yw, w, x + radius + 1, p);
    var sir := Rgb(Red(p), Green(p), Blue(p));

    rsum', gsum', bsum', rinsum', ginsum', binsum', routsum', goutsum', boutsum', stackpointer' :=
      TakeEntering(stack, radius, stackstart, stackpointer, sir,
                   rsum', gsum', bsum', rinsum, ginsum, binsum, routsum', goutsum', boutsum',
                   vr, vg, vb, x, first);
  }

  /** The state of the sliding loop of a row at column x: the stack holds
      the window centred at x, the sums are its kernel and halves, r, g and
      b hold the blurred row up to x - 1, and vmin the entering columns. */
  ghost predicate RowState(stack: array<Rgb>, vmin: array<int>, r: array<int>, g: array<int>, b: array<int>,
                           w: int, y: int, yw: int, radius: int, x: int, stackpointer: int,
                           rsum: int, gsum: int, bsum: int, rinsum: int, ginsum: int, binsum: int,
                           routsum: int, goutsum: int, boutsum: int,
                           vr: seq<int>, vg: seq<int>, vb: seq<int>,
                           r0: seq<int>, g0: seq<int>, b0: seq<int>, first: int)
    reads stack, vmin, r, g, b
  {
    1 <= radius && 0 <= y && 0 <= x <= w <= vmin.Length && 1 <= w && |vr| == w && |vg| == w && |vb| == w
    && 0 <= stackpointer < 2 * radius + 1 && CentreSlot(stackpointer, first, radius)
    && WindowHeld(stack[..], vr, vg, vb, x, radius, first)
    && Running(vr, x, radius, rsum, rinsum, routsum)
    && Running(vg, x, radius, gsum, ginsum, goutsum)
    && Running(vb, x, radius, bsum, binsum, boutsum)
    && RowProgress(r[..], r0, yw, vr, radius, x)
    && RowProgress(g[..], g0, yw, vg, radius, x)
    && RowProgress(b[..], b0, yw, vb, radius, x)
    && EnteringColumns(vmin, w, radius, if y == 0 then x else w)
  }

  /** One step of the sliding loop of a row, at column x: write the blurred
      channels of column x to r, g and b at yi, then slide the window on to
      x + 1. */
  method SlideColumn(pix: array<Pixel>, w: int, y: int, yw: int, radius: int, dv: array<int>,
                     stack: array<Rgb>, vmin: array<int>, r: array<int>, g: array<int>, b: array<int>,
                     x: int, yi: int, stackpointer: int,
                     rsum: int, gsum: int, bsum: int, rinsum: int, ginsum: int, binsum: int,
                     routsum: int, goutsum: int, boutsum: int,
                     ghost vr: seq<int>, ghost vg: seq<int>, ghost vb: seq<int>,
                     ghost r0: seq<int>, ghost g0: seq<int>, ghost b0: seq<int>, ghost first: int)
      returns (rsum': int, gsum': int, bsum': int, rinsum': int, ginsum': int, binsum': int,
               routsum': int, goutsum': int, boutsum': int, stackpointer': int)
    requires 1 <= radius && 0 <= x < w && yi == yw + x
    requires RowSamples(vr, vg, vb, pix[..], yw, w)
    requires DivisionTable(dv, radius) && Distinct(dv, vmin, r, g, b)
    requires RowState(stack, vmin, r, g, b, w, y, yw, radius, x, stackpointer,
                      rsum, gsum, bsum, rinsum, ginsum, binsum, routsum, goutsum, boutsum,
                      vr, vg, vb, r0, g0, b0, first)
    modifies stack, vmin, r, g, b
    ensures RowState(stack, vmin, r, g, b, w, y, yw, radius, x + 1, stackpointer',
                     rsum', gsum', bsum', rinsum', ginsum', binsum', routsum', goutsum', boutsum',
                     vr, vg, vb, r0, g0, b0, NextSlot(first, 2 * radius + 1))
  {
    RowSamplesAreChannels(vr, vg, vb, pix[..], yw, w);
    EmitRowColumn(dv, radius, r, g, b, yi, rsum, gsum, bsum, vr, vg, vb, x, yw, r0, g0, b0);
    rsum', gsum', bsum', rinsum', ginsum', binsum', routsum', goutsum', boutsum', stackpointer' :=
      SlideRowWindow(pix, w, y, yw, radius, stack, vmin, x, stackpointer,
                     rsum, gsum, bsum, rinsum, ginsum, binsum, routsum, goutsum, boutsum,
                     vr, vg, vb, first);
  }

  /** The sliding loop of a row: from the window loaded at column 0, write
      the blurred channels of every column of the row into r, g and b. */
  method SlideAlongRow(pix: array<Pixel>, w: int, y: int, yw: int, radius: int, dv: array<int>,
                       stack: array<Rgb>, vmin: array<int>, r: array<int>, g: array<int>, b: array<int>,
                       rsum: int, gsum: int, bsum: int, rinsum: int, ginsum: int, binsum: int,
                       routsum: int, goutsum: int, boutsum: int,
                       ghost vr: seq<int>, ghost vg: seq<int>, ghost vb: seq<int>)
    requires 1 <= w && 0 <= y && 1 <= radius
    requires RowSamples(vr, vg, vb, pix[..], yw, w)
    requires DivisionTable(dv, radius)
    requires stack.Length == 2 * radius + 1
    requires w <= vmin.Length
    requires yw + w <= r.Length && yw + w <= g.Length && yw + w <= b.Length
    requires Distinct(dv, vmin, r, g, b)
    requires WindowHeld(stack[..], vr, vg, vb, 0, radius, 0)
    requires Running(vr, 0, radius, rsum, rinsum, routsum)
    requires Running(vg, 0, radius, gsum, ginsum, goutsum)
    requires Running(vb, 0, radius, bsum, binsum, boutsum)
    requires y > 0 ==> EnteringColumns(vmin, w, radius, w)
    modifies stack, vmin, r, g, b
    ensures RowProgress(r[..], old(r[..]), yw, vr, radius, w)
    ensures RowProgress(g[..], old(g[..]), yw, vg, radius, w)
    ensures RowProgress(b[..], old(b[..]), yw, vb, radius, w)
    ensures EnteringColumns(vmin, w, radius, w)
  {
    var div := 2 * radius + 1;
    ghost var r0, g0, b0 := r[..], g[..], b[..];
    var rsum, gsum, bsum, rinsum, ginsum, binsum, routsum, goutsum, boutsum :=
      rsum, gsum, bsum, rinsum, ginsum, binsum, routsum, goutsum, boutsum;
    var stackpointer := radius;
    ghost var first := 0;
    var x := 0;
    var yi := yw;
    while x < w
      invariant yi == yw + x
      invariant RowState(stack, vmin, r, g, b, w, y, yw, radius, x, stackpointer,
                         rsum, gsum, bsum, rinsum, ginsum, binsum, routsum, goutsum, boutsum,
                         vr, vg, vb, r0, g0, b0, first)
    {
      rsum, gsum, bsum, rinsum, ginsum, binsum, routsum, goutsum, boutsum, stackpointer :=
        SlideColumn(pix, w, y, yw, radius, dv, stack, vmin, r, g, b, x, yi, stackpointer,
                    rsum, gsum, bsum, rinsum, ginsum, binsum, routsum, goutsum, boutsum,
                    vr, vg, vb, r0, g0, b0, first);
      first := NextSlot(first, div);
      yi := yi + 1;
      x := x + 1;
    }
  }

  /** One row of the horizontal pass: load the window, then slide it along
      the row, writing the blurred channels of the row starting at yw into r,
      g and b. The first row (y == 0) also fills
      vmin[x] = min(x + radius + 1, w - 1); the others reuse it. */
  method BlurRow(pix: array<Pixel>, w: int, y: int, yw: int, radius: int, dv: array<int>,
                 stack: array<Rgb>, vmin: array<int>, r: array<int>, g: array<int>, b: array<int>,
                 ghost vr: seq<int>, ghost vg: seq<int>, ghost vb: seq<int>)
    requires 1 <= w && 0 <= y && 1 <= radius
    requires RowSamples(vr, vg, vb, pix[..], yw, w)
    requires DivisionTable(dv, radius)
    requires stack.Length == 2 * radius + 1
    requires w <= vmin.Length
    requires yw + w <= r.Length && yw + w <= g.Length && yw + w <= b.Length
    requires Distinct(dv, vmin, r, g, b)
    requires y > 0 ==> EnteringColumns(vmin, w, radius, w)
    modifies stack, vmin, r, g, b
    ensures r[..] == Spliced(old(r[..]), yw, BlurLine(vr, radius))
    ensures g[..] == Spliced(old(g[..]), yw, BlurLine(vg, radius))
    ensures b[..] == Spliced(old(b[..]), yw, BlurLine(vb, radius))
    ensures EnteringColumns(vmin, w, radius, w)
  {
    ghost var r0, g0, b0 := r[..], g[..], b[..];
    var rinsum, ginsum, binsum, routsum, goutsum, boutsum, rsum, gsum, bsum :=
      LoadRowWindow(pix, w, yw, radius, stack, vr, vg, vb);
    SlideAlongRow(pix, w, y, yw, radius, dv, stack, vmin, r, g, b,
                  rsum, gsum, bsum, rinsum, ginsum, binsum, routsum, goutsum, boutsum, vr, vg, vb);
    RowProgressDone(r[..], r0, yw, vr, radius);
    RowProgressDone(g[..], g0, yw, vg, radius);
    RowProgressDone(b[..], b0, yw, vb, radius);
  }

  /** Blurring row y into a buffer whose first y rows hold the horizontal
      pass extends them to the first y + 1 rows. */
  lemma HorizontalPassStep(out: seq<int>, ch: seq<int>, w: nat, h: nat, y: nat, yw: int, r: nat)
    requires w > 0 && |ch| == w * h && y < h && yw == y * w && |out| == w * h && yw + w <= |out|
    requires out[..yw] == HorizontalPass(ch, w, y, r)
    ensures yw + w == (y + 1) * w
    ensures Spliced(out, yw, BlurLine(Row(ch, w, y), r))[..yw + w] == HorizontalPass(ch, w, y + 1, r)
  {
    RowMajorIndex(y, 0, w, h);
    var line := BlurLine(Row(ch, w, y), r);
    assert Spliced(out, yw, line)[..yw + w] == out[..yw] + line;
  }

  /** The horizontal pass: every row of pix blurred on its own, each colour
      channel into its buffer. */
  method BlurRows(pix: array<Pixel>, w: int, h: int, radius: int, dv: array<int>,
                  stack: array<Rgb>, vmin: array<int>, r: array<int>, g: array<int>, b: array<int>)
    requires 1 <= w && 1 <= h && 1 <= radius && pix.Length == w * h
    requires DivisionTable(dv, radius)
    requires stack.Length == 2 * radius + 1 && w <= vmin.Length
    requires r.Length == w * h && g.Length == w * h && b.Length == w * h
    requires Distinct(dv, vmin, r, g, b)
    modifies stack, vmin, r, g, b
    ensures r[..] == HorizontalPass(Reds(pix[..]), w, h, radius)
    ensures g[..] == HorizontalPass(Greens(pix[..]), w, h, radius)
    ensures b[..] == HorizontalPass(Blues(pix[..]), w, h, radius)
  {
    ghost var src := pix[..];
    var yw := 0;
    var y := 0;
    while y < h
      invariant 0 <= y <= h && yw == y * w && yw <= w * h
      invariant r[..yw] == HorizontalPass(Reds(src), w, y, radius)
      invariant g[..yw] == HorizontalPass(Greens(src), w, y, radius)
      invariant b[..yw] == HorizontalPass(Blues(src), w, y, radius)
      invariant y > 0 ==> EnteringColumns(vmin, w, radius, w)
    {
      RowSamplesOfImage(src, w, h, y);
      ghost var r0, g0, b0 := r[..], g[..], b[..];
      BlurRow(pix, w, y, yw, radius, dv, stack, vmin, r, g, b,
              Row(Reds(src), w, y), Row(Greens(src), w, y), Row(Blues(src), w, y));
      HorizontalPassStep(r0, Reds(src), w, h, y, yw, radius);
      HorizontalPassStep(g0, Greens(src), w, h, y, yw, radius);
      HorizontalPassStep(b0, Blues(src), w, h, y, yw, radius);
      yw := yw + w;
      y := y + 1;
    }
    RowsEnd(yw, w, h);
    assert r[..] == r[..yw];
    assert g[..] == g[..yw];
    assert b[..] == b[..yw];
  }

  // ---------------------------------------------------------------------
  // Vertical pass
  // ---------------------------------------------------------------------

  /** Sample j of column x of a channel buffer, clamped at the top and
      bottom edges, sits at row Clamp(j, h - 1) of the buffer. */
  lemma ColumnSampleAt(ch: seq<int>, w: nat, h: nat, x: nat, j: int, p: int)
    requires x < w && 1 <= h && |ch| == w * h && p == Clamp(j, h - 1) * w + x
    ensures 0 <= p < |ch| && ch[p] == At(Column(ch, w, h, x), j)
  {
    ColumnAt(ch, w, h, x, Clamp(j, h - 1));
  }

  /** The row offset `yp` of the loading loop of a column is
      min(i, h - 1) * w; `Math.max(0, yp)` is the offset of the clamped row,
      and `yp` grows by w while i is above the last row. */
  lemma LoadOffset(i: int, hm: int, w: int)
    requires 0 <= hm && 0 < w
    ensures SampleSize.Max(0, Min(i, hm) * w) == Clamp(i, hm) * w
    ensures Min(i + 1, hm) * w == Min(i, hm) * w + (if i < hm then w else 0)
  {
    if i < 0 {
      assert (-i) * w > 0;
    } else if i < hm {
      assert (i + 1) * w == i * w + w;
    }
  }

  /** vmin[k] = min(k + radius + 1, h - 1) * w, the offset of the row that
      enters the window as it slides past row k, for every k below n. */
  ghost predicate EnteringRows(vmin: array<int>, w: int, h: int, radius: int, n: int)
    reads vmin
  {
    0 <= n <= vmin.Length && forall k :: 0 <= k < n ==> vmin[k] == Min(k + radius + 1, h - 1) * w
  }

  /** The offset of the row entering the window of column x as it slides
      past row y: the first column computes min(y + radius + 1, h - 1) * w
      into vmin[y], the later ones read it back. */
  method EnteringRow(vmin: array<int>, w: int, h: int, x: int, radius: int, y: int) returns (offset: int)
    requires 0 <= y < h <= vmin.Length && 0 <= x && 0 <= radius
    requires EnteringRows(vmin, w, h, radius, if x == 0 then y else h)
    modifies vmin
    ensures offset == Clamp(y + radius + 1, h - 1) * w
    ensures EnteringRows(vmin, w, h, radius, if x == 0 then y + 1 else h)
  {
    if x == 0 {
      vmin[y] := Min(y + radius + 1, h - 1) * w;
    }
    offset := vmin[y];
  }

  /** The first loop of a column: load the window centred at row 0, clamped
      at the top edge, from the channel buffers into the stack and the
      running sums. */
  method LoadColumnWindow(r: array<int>, g: array<int>, b: array<int>, w: int, h: int, x: int,
                          radius: int, stack: array<Rgb>,
                          ghost vr: seq<int>, ghost vg: seq<int>, ghost vb: seq<int>)
      returns (rinsum: int, ginsum: int, binsum: int, routsum: int, goutsum: int, boutsum: int,
               rsum: int, gsum: int, bsum: int)
    requires 1 <= h && 0 <= x < w && 1 <= radius
    requires r.Length == w * h && g.Length == w * h && b.Length == w * h
    requires vr == Column(r[..], w, h, x) && vg == Column(g[..], w, h, x) && vb == Column(b[..], w, h, x)
    requires stack.Length == 2 * radius + 1
    modifies stack
    ensures Running(vr, 0, radius, rsum, rinsum, routsum)
    ensures Running(vg, 0, radius, gsum, ginsum, goutsum)
    ensures Running(vb, 0, radius, bsum, binsum, boutsum)
    ensures WindowHeld(stack[..], vr, vg, vb, 0, radius, 0)
  {
    ghost var hr, hg, hb := r[..], g[..], b[..];
    var hm := h - 1;
    rinsum, ginsum, binsum := 0, 0, 0;
    routsum, goutsum, boutsum := 0, 0, 0;
    rsum, gsum, bsum := 0, 0, 0;
    var yp := -radius * w;
    var i := -radius;
    while i <= radius
      invariant -radius <= i <= radius + 1 && yp == Min(i, hm) * w
      invariant Loaded(stack[..], vr, vg, vb, radius, i + radius)
      invariant Loading(vr, radius, i, rsum, rinsum, routsum)
      invariant Loading(vg, radius, i, gsum, ginsum, goutsum)
      invariant Loading(vb, radius, i, bsum, binsum, boutsum)
    {
      LoadOffset(i, hm, w);
      var yi := SampleSize.Max(0, yp) + x;
      ColumnSampleAt(hr, w, h, x, i, yi);
      ColumnSampleAt(hg, w, h, x, i, yi);
      ColumnSampleAt(hb, w, h, x, i, yi);
      rsum, gsum, bsum, rinsum, ginsum, binsum, routsum, goutsum, boutsum :=
        LoadSlot(stack, radius, i, Rgb(r[yi], g[yi], b[yi]),
                 rsum, gsum, bsum, rinsum, ginsum, binsum, routsum, goutsum, boutsum, vr, vg, vb);
      if i < hm {
        yp := yp + w;
      }
      i := i + 1;
    }
    LoadDone(vr, radius, rsum, rinsum, routsum);
    LoadDone(vg, radius, gsum, ginsum, goutsum);
    LoadDone(vb, radius, bsum, binsum, boutsum);
  }

  /** Whether the vertical pass has written index k of a row-major image of
      width w, once it has finished columns 0 to x - 1 and rows 0 to y - 1
      of column x. */
  predicate Written(k: int, w: int, x: int, y: int)
    requires w > 0
  {
    k % w < x || (k % w == x && k / w < y)
  }

  /** pix holds the blurred image out where the vertical pass has written,
      and the source image src elsewhere. */
  ghost predicate VerticalProgress(pix: seq<Pixel>, src: seq<Pixel>, out: seq<Pixel>, w: int, x: int, y: int)
    requires w > 0
  {
    |pix| == |src| && |out| == |src|
    && forall k :: 0 <= k < |pix| ==> pix[k] == if Written(k, w, x, y) then out[k] else src[k]
  }

  /** Writing the blurred pixel at row y of column x extends the written
      part by one. */
  lemma VerticalProgressStep(pix: seq<Pixel>, src: seq<Pixel>, out: seq<Pixel>, w: int, h: int,
                             x: int, y: int, yi: int, q: Pixel)
    requires 0 <= x < w && 0 <= y < h && |src| == w * h && yi == y * w + x && 0 <= yi < |src|
    requires VerticalProgress(pix, src, out, w, x, y) && q == out[yi]
    ensures pix[yi] == src[yi]
    ensures VerticalProgress(pix[yi := q], src, out, w, x, y + 1)
  {
    RowMajorUnique(y, x, w);
    forall k | 0 <= k < |pix| && k != yi
      ensures Written(k, w, x, y + 1) == Written(k, w, x, y)
    {
      RowMajorCoordinates(k, w, h);
    }
  }

  /** Before the vertical pass has written anything, pix is the source. */
  lemma VerticalStart(src: seq<Pixel>, out: seq<Pixel>, w: int)
    requires 0 < w && |out| == |src|
    ensures VerticalProgress(src, src, out, w, 0, 0)
  {
    forall k | 0 <= k < |src|
      ensures !Written(k, w, 0, 0)
    {
      assert k / w >= 0;
    }
  }

  /** A column finished at every row is a finished column. */
  lemma ColumnDone(pix: seq<Pixel>, src: seq<Pixel>, out: seq<Pixel>, w: int, h: int, x: int)
    requires 0 <= x < w && |src| == w * h
    requires VerticalProgress(pix, src, out, w, x, h)
    ensures VerticalProgress(pix, src, out, w, x + 1, 0)
  {
    forall k | 0 <= k < |pix|
      ensures Written(k, w, x, h) == Written(k, w, x + 1, 0)
    {
      RowMajorCoordinates(k, w, h);
    }
  }

  /** With every column finished, the image is the blurred one. */
  lemma VerticalDone(pix: seq<Pixel>, src: seq<Pixel>, out: seq<Pixel>, w: int)
    requires 0 < w && VerticalProgress(pix, src, out, w, w, 0)
    ensures pix == out
  {
    forall k | 0 <= k < |pix|
      ensures pix[k] == out[k]
    {
      assert Written(k, w, w, 0);
    }
  }

  /** Writes the blurred pixel at row y of column x: the alpha byte of the
      source pixel, each colour channel the window sum through the division
      table. */
  method EmitPixel(dv: array<int>, radius: int, pix: array<Pixel>, yi: int,
                   rsum: int, gsum: int, bsum: int,
                   ghost src: seq<Pixel>, ghost out: seq<Pixel>,
                   ghost hr: seq<int>, ghost hg: seq<int>, ghost hb: seq<int>,
                   ghost w: int, ghost h: int, ghost x: int, ghost y: int)
    requires 1 <= radius && DivisionTable(dv, radius)
    requires 0 <= x < w && 0 <= y < h && |src| == w * h && yi == y * w + x
    requires |hr| == w * h && |hg| == w * h && |hb| == w * h
    requires IsChannelLine(hr) && IsChannelLine(hg) && IsChannelLine(hb)
    requires out == VerticalPass(src, hr, hg, hb, w, h, radius)
    requires rsum == Kernel(Column(hr, w, h, x), y, radius)
    requires gsum == Kernel(Column(hg, w, h, x), y, radius)
    requires bsum == Kernel(Column(hb, w, h, x), y, radius)
    requires VerticalProgress(pix[..], src, out, w, x, y)
    modifies pix
    ensures VerticalProgress(pix[..], src, out, w, x, y + 1)
  {
    ColumnIsChannel(hr, w, h, x);
    ColumnIsChannel(hg, w, h, x);
    ColumnIsChannel(hb, w, h, x);
    TableLookup(dv, radius, Column(hr, w, h, x), y, rsum);
    TableLookup(dv, radius, Column(hg, w, h, x), y, gsum);
    TableLookup(dv, radius, Column(hb, w, h, x), y, bsum);
    VerticalPassAt(src, hr, hg, hb, w, h, radius, y, x);
    var q := Pack(pix[yi], dv[rsum], dv[gsum], dv[bsum]);
    VerticalProgressStep(pix[..], src, out, w, h, x, y, yi, out[yi]);
    PixelFromChannels(q, out[yi]);
    pix[yi] := q;
  }
  /** The samples entering the window of column x as it slides past row y:
      the channels at row min(y + radius + 1, h - 1) of the column. */
  method EnteringSamples(r: array<int>, g: array<int>, b: array<int>, w: int, h: int, x: int,
                         radius: int, vmin: array<int>, y: int,
                         ghost hr: seq<int>, ghost hg: seq<int>, ghost hb: seq<int>,
                         ghost vr: seq<int>, ghost vg: seq<int>, ghost vb: seq<int>)
      returns (sir: Rgb)
    requires 0 <= radius && 0 <= x < w && 0 <= y < h <= vmin.Length
    requires r[..] == hr && g[..] == hg && b[..] == hb && |hr| == w * h && |hg| == w * h && |hb| == w * h
    requires vmin != r && vmin != g && vmin != b
    requires vr == Column(hr, w, h, x) && vg == Column(hg, w, h, x) && vb == Column(hb, w, h, x)
    requires EnteringRows(vmin, w, h, radius, if x == 0 then y else h)
    modifies vmin
    ensures sir == SamplesAt(vr, vg, vb, y + radius + 1)
    ensures EnteringRows(vmin, w, h, radius, if x == 0 then y + 1 else h)
  {
    var offset := EnteringRow(vmin, w, h, x, radius, y);
    var p := x + offset;
    ColumnSampleAt(hr, w, h, x, y + radius + 1, p);
    ColumnSampleAt(hg, w, h, x, y + radius + 1, p);
    ColumnSampleAt(hb, w, h, x, y + radius + 1, p);
    sir := Rgb(r[p], g[p], b[p]);
  }

  /** The slide of a column's window from row y to y + 1: take the leaving
      samples out of the stack and the sums, and put the entering ones, from
      row min(y + radius + 1, h - 1), in. */
  method SlideColumnWindow(r: array<int>, g: array<int>, b: array<int>, w: int, h: int, x: int,
                           radius: int, stack: array<Rgb>, vmin: array<int>, y: int, stackpointer: int,
                           rsum: int, gsum: int, bsum: int, rinsum: int, ginsum: int, binsum: int,
                           routsum: int, goutsum: int, boutsum: int,
                           ghost hr: seq<int>, ghost hg: seq<int>, ghost hb: seq<int>,
                           ghost vr: seq<int>, ghost vg: seq<int>, ghost vb: seq<int>, ghost first: int)
      returns (rsum': int, gsum': int, bsum': int, rinsum': int, ginsum': int, binsum': int,
               routsum': int, goutsum': int, boutsum': int, stackpointer': int)
    requires 1 <= radius && 0 <= x < w && 0 <= y < h <= vmin.Length
    requires r[..] == hr && g[..] == hg && b[..] == hb && |hr| == w * h && |hg| == w * h && |hb| == w * h
    requires vmin != r && vmin != g && vmin != b
    requires vr == Column(hr, w, h, x) && vg == Column(hg, w, h, x) && vb == Column(hb, w, h, x)
    requires 0 <= stackpointer < 2 * radius + 1 && CentreSlot(stackpointer, first, radius)
    requires WindowHeld(stack[..], vr, vg, vb, y, radius, first)
    requires Running(vr, y, radius, rsum, rinsum, routsum)
    requires Running(vg, y, radius, gsum, ginsum, goutsum)
    requires Running(vb, y, radius, bsum, binsum, boutsum)
    requires EnteringRows(vmin, w, h, radius, if x == 0 then y else h)
    modifies stack, vmin
    ensures 0 <= stackpointer' < 2 * radius + 1
    ensures CentreSlot(stackpointer', NextSlot(first, 2 * radius + 1), radius)
    ensures WindowHeld(stack[..], vr, vg, vb, y + 1, radius, NextSlot(first, 2 * radius + 1))
    ensures Running(vr, y + 1, radius, rsum', rinsum', routsum')
    ensures Running(vg, y + 1, radius, gsum', ginsum', goutsum')
    ensures Running(vb, y + 1, radius, bsum', binsum', boutsum')
    ensures EnteringRows(vmin, w, h, radius, if x == 0 then y + 1 else h)
  {
    var div := 2 * radius + 1;
    SlideStep(vr, y, radius, rsum, rinsum, routsum);
    SlideStep(vg, y, radius, gsum, ginsum, goutsum);
    SlideStep(vb, y, radius, bsum, binsum, boutsum);

    var stackstart := stackpointer - radius + div;
    rsum', gsum', bsum', routsum', goutsum', boutsum' :=
      ReleaseLeaving(stack, radius, stackstart, rsum, gsum, bsum, routsum, goutsum, boutsum,
                     vr, vg, vb, y, first, stackpointer);

    var sir := EnteringSamples(r, g, b, w, h, x, radius, vmin, y, hr, hg, hb, vr, vg, vb);

    rsum', gsum', bsum', rinsum', ginsum', binsum', routsum', goutsum', boutsum', stackpointer' :=
      TakeEntering(stack, radius, stackstart, stackpointer, sir,
                   rsum', gsum', bsum', rinsum, ginsum, binsum, routsum', goutsum', boutsum',
                   vr, vg, vb, y, first);
  }

  /** One step of the sliding loop of a column, at row y: write the blurred
      pixel at row y, then slide the window on to y + 1. */
  method SlidePixel(pix: array<Pixel>, r: array<int>, g: array<int>, b: array<int>, w: int, h: int,
                    x: int, radius: int, dv: array<int>, stack: array<Rgb>, vmin: array<int>,
                    y: int, yi: int, stackpointer: int,
                    rsum: int, gsum: int, bsum: int, rinsum: int, ginsum: int, binsum: int,
                    routsum: int, goutsum: int, boutsum: int,
                    ghost src: seq<Pixel>, ghost out: seq<Pixel>,
                    ghost hr: seq<int>, ghost hg: seq<int>, ghost hb: seq<int>,
                    ghost vr: seq<int>, ghost vg: seq<int>, ghost vb: seq<int>, ghost first: int)
      returns (rsum': int, gsum': int, bsum': int, rinsum': int, ginsum': int, binsum': int,
               routsum': int, goutsum': int, boutsum': int, stackpointer': int)
    requires 1 <= radius && 0 <= x < w && 0 <= y < h <= vmin.Length && yi == y * w + x
    requires |src| == w * h && |hr| == w * h && |hg| == w * h && |hb| == w * h
    requires r[..] == hr && g[..] == hg && b[..] == hb
    requires IsChannelLine(hr) && IsChannelLine(hg) && IsChannelLine(hb)
    requires out == VerticalPass(src, hr, hg, hb, w, h, radius)
    requires DivisionTable(dv, radius) && Distinct(dv, vmin, r, g, b)
    requires vr == Column(hr, w, h, x) && vg == Column(hg, w, h, x) && vb == Column(hb, w, h, x)
    requires 0 <= stackpointer < 2 * radius + 1 && CentreSlot(stackpointer, first, radius)
    requires WindowHeld(stack[..], vr, vg, vb, y, radius, first)
    requires Running(vr, y, radius, rsum, rinsum, routsum)
    requires Running(vg, y, radius, gsum, ginsum, goutsum)
    requires Running(vb, y, radius, bsum, binsum, boutsum)
    requires VerticalProgress(pix[..], src, out, w, x, y)
    requires EnteringRows(vmin, w, h, radius, if x == 0 then y else h)
    modifies pix, stack, vmin
    ensures 0 <= stackpointer' < 2 * radius + 1
    ensures CentreSlot(stackpointer', NextSlot(first, 2 * radius + 1), radius)
    ensures WindowHeld(stack[..], vr, vg, vb, y + 1, radius, NextSlot(first, 2 * radius + 1))
    ensures Running(vr, y + 1, radius, rsum', rinsum', routsum')
    ensures Running(vg, y + 1, radius, gsum', ginsum', goutsum')
    ensures Running(vb, y + 1, radius, bsum', binsum', boutsum')
    ensures VerticalProgress(pix[..], src, out, w, x, y + 1)
    ensures EnteringRows(vmin, w, h, radius, if x == 0 then y + 1 else h)
  {
    EmitPixel(dv, radius, pix, yi, rsum, gsum, bsum, src, out, hr, hg, hb, w, h, x, y);
    rsum', gsum', bsum', rinsum', ginsum', binsum', routsum', goutsum', boutsum', stackpointer' :=
      SlideColumnWindow(r, g, b, w, h, x, radius, stack, vmin, y, stackpointer,
                        rsum, gsum, bsum, rinsum, ginsum, binsum, routsum, goutsum, boutsum,
                        hr, hg, hb, vr, vg, vb, first);
  }

  /** The sliding loop of a column: from the window loaded at row 0, write
      the blurred pixel of every row of column x into pix. */
  method SlideDownColumn(pix: array<Pixel>, r: array<int>, g: array<int>, b: array<int>, w: int, h: int,
                         x: int, radius: int, dv: array<int>, stack: array<Rgb>, vmin: array<int>,
                         rsum: int, gsum: int, bsum: int, rinsum: int, ginsum: int, binsum: int,
                         routsum: int, goutsum: int, boutsum: int,
                         ghost src: seq<Pixel>, ghost out: seq<Pixel>,
                         ghost vr: seq<int>, ghost vg: seq<int>, ghost vb: seq<int>)
    requires 1 <= radius && 0 <= x < w && 1 <= h <= vmin.Length
    requires |src| == w * h && r.Length == w * h && g.Length == w * h && b.Length == w * h
    requires IsChannelLine(r[..]) && IsChannelLine(g[..]) && IsChannelLine(b[..])
    requires out == VerticalPass(src, r[..], g[..], b[..], w, h, radius)
    requires DivisionTable(dv, radius) && Distinct(dv, vmin, r, g, b)
    requires stack.Length == 2 * radius + 1
    requires vr == Column(r[..], w, h, x) && vg == Column(g[..], w, h, x) && vb == Column(b[..], w, h, x)
    requires WindowHeld(stack[..], vr, vg, vb, 0, radius, 0)
    requires Running(vr, 0, radius, rsum, rinsum, routsum)
    requires Running(vg, 0, radius, gsum, ginsum, goutsum)
    requires Running(vb, 0, radius, bsum, binsum, boutsum)
    requires VerticalProgress(pix[..], src, out, w, x, 0)
    requires x > 0 ==> EnteringRows(vmin, w, h, radius, h)
    modifies pix, stack, vmin
    ensures VerticalProgress(pix[..], src, out, w, x, h)
    ensures EnteringRows(vmin, w, h, radius, h)
  {
    var div := 2 * radius + 1;
    ghost var hr, hg, hb := r[..], g[..], b[..];
    var rsum, gsum, bsum, rinsum, ginsum, binsum, routsum, goutsum, boutsum :=
      rsum, gsum, bsum, rinsum, ginsum, binsum, routsum, goutsum, boutsum;
    var stackpointer := radius;
    ghost var first := 0;
    var yi := x;
    var y := 0;
    while y < h
      invariant 0 <= y <= h && yi == y * w + x
      invariant 0 <= stackpointer < div && CentreSlot(stackpointer, first, radius)
      invariant WindowHeld(stack[..], vr, vg, vb, y, radius, first)
      invariant Running(vr, y, radius, rsum, rinsum, routsum)
      invariant Running(vg, y, radius, gsum, ginsum, goutsum)
      invariant Running(vb, y, radius, bsum, binsum, boutsum)
      invariant VerticalProgress(pix[..], src, out, w, x, y)
      invariant EnteringRows(vmin, w, h, radius, if x == 0 then y else h)
    {
      rsum, gsum, bsum, rinsum, ginsum, binsum, routsum, goutsum, boutsum, stackpointer :=
        SlidePixel(pix, r, g, b, w, h, x, radius, dv, stack, vmin, y, yi, stackpointer,
                   rsum, gsum, bsum, rinsum, ginsum, binsum, routsum, goutsum, boutsum,
                   src, out, hr, hg, hb, vr, vg, vb, first);
      first := NextSlot(first, div);
      MulAddOne(y, w);
      yi := yi + w;
      y := y + 1;
    }
  }

  /** One column of the vertical pass: load the window, then slide it down
      the column, writing each blurred pixel into pix. The first column
      (x == 0) also fills vmin[y] = min(y + radius + 1, h - 1) * w; the
      others reuse it. */
  method BlurColumn(pix: array<Pixel>, r: array<int>, g: array<int>, b: array<int>, w: int, h: int,
                    x: int, radius: int, dv: array<int>, stack: array<Rgb>, vmin: array<int>,
                    ghost src: seq<Pixel>, ghost out: seq<Pixel>)
    requires 1 <= radius && 0 <= x < w && 1 <= h <= vmin.Length
    requires |src| == w * h && r.Length == w * h && g.Length == w * h && b.Length == w * h
    requires IsChannelLine(r[..]) && IsChannelLine(g[..]) && IsChannelLine(b[..])
    requires out == VerticalPass(src, r[..], g[..], b[..], w, h, radius)
    requires DivisionTable(dv, radius) && Distinct(dv, vmin, r, g, b)
    requires stack.Length == 2 * radius + 1
    requires VerticalProgress(pix[..], src, out, w, x, 0)
    requires x > 0 ==> EnteringRows(vmin, w, h, radius, h)
    modifies pix, stack, vmin
    ensures VerticalProgress(pix[..], src, out, w, x + 1, 0)
    ensures EnteringRows(vmin, w, h, radius, h)
  {
    ghost var vr, vg, vb := Column(r[..], w, h, x), Column(g[..], w, h, x), Column(b[..], w, h, x);
    var rinsum, ginsum, binsum, routsum, goutsum, boutsum, rsum, gsum, bsum :=
      LoadColumnWindow(r, g, b, w, h, x, radius, stack, vr, vg, vb);
    SlideDownColumn(pix, r, g, b, w, h, x, radius, dv, stack, vmin,
                    rsum, gsum, bsum, rinsum, ginsum, binsum, routsum, goutsum, boutsum,
                    src, out, vr, vg, vb);
    ColumnDone(pix[..], src, out, w, h, x);
  }

  /** The vertical pass: every column of the horizontally blurred channels
      blurred on its own and packed, with the source pixel's alpha, into
      pix. */
  method BlurColumns(pix: array<Pixel>, r: array<int>, g: array<int>, b: array<int>, w: int, h: int,
                     radius: int, dv: array<int>, stack: array<Rgb>, vmin: array<int>)
    requires 1 <= radius && 1 <= w && 1 <= h <= vmin.Length && pix.Length == w * h
    requires r.Length == w * h && g.Length == w * h && b.Length == w * h
    requires IsChannelLine(r[..]) && IsChannelLine(g[..]) && IsChannelLine(b[..])
    requires DivisionTable(dv, radius) && Distinct(dv, vmin, r, g, b)
    requires stack.Length == 2 * radius + 1
    modifies pix, stack, vmin
    ensures pix[..] == VerticalPass(old(pix[..]), r[..], g[..], b[..], w, h, radius)
  {
    ghost var src := pix[..];
    ghost var out := VerticalPass(src, r[..], g[..], b[..], w, h, radius);
    VerticalStart(src, out, w);
    var x := 0;
    while x < w
      invariant 0 <= x <= w
      invariant VerticalProgress(pix[..], src, out, w, x, 0)
      invariant x > 0 ==> EnteringRows(vmin, w, h, radius, h)
    {
      BlurColumn(pix, r, g, b, w, h, x, radius, dv, stack, vmin, src, out);
      x := x + 1;
    }
    VerticalDone(pix[..], src, out, w);
  }

  // ---------------------------------------------------------------------
  // fastblur
  // ---------------------------------------------------------------------

  /** (div + 1) >> 1, squared, is the kernel's divisor (radius + 1)^2, and
      its division table fits in a Java `int` array for radius up to
      MaxRadius. */
  lemma DivSum(radius: int, div: int, half: int)
    requires 1 <= radius <= MaxRadius && div == radius + radius + 1 && half == (div + 1) / 2
    ensures half * half == Divisor(radius)
    ensures 1 <= half * half && 256 * (half * half) <= SampleSize.IntMax
  {
    assert half == radius + 1;
    assert half * half <= (MaxRadius + 1) * (MaxRadius + 1) by {
      MulMonotone(half, MaxRadius + 1, half);
      MulMonotone(half, MaxRadius + 1, MaxRadius + 1);
    }
  }

  /** The blur of fastblur on the pixel buffer pix of a w by h bitmap:
      the buffers and tables it allocates, the horizontal pass into r, g
      and b, and the vertical pass back into pix. */
  method BlurPixels(pix: array<Pixel>, w: int, h: int, radius: int)
    requires 1 <= w && 1 <= h && pix.Length == w * h && w * h <= SampleSize.IntMax
    requires 1 <= radius <= MaxRadius
    modifies pix
    ensures pix[..] == StackBlur(old(pix[..]), w, h, radius)
  {
    ghost var src := pix[..];
    var wh := w * h;
    var div := radius + radius + 1;
    var r := new int[wh];
    var g := new int[wh];
    var b := new int[wh];
    var vmin := new int[SampleSize.Max(w, h)];

    var divsum := (div + 1) / 2;
    DivSum(radius, div, divsum);
    divsum := divsum * divsum;
    var dv := BuildDivisionTable(divsum);
    var stack := new Rgb[div](_ => Rgb(0, 0, 0));

    BlurRows(pix, w, h, radius, dv, stack, vmin, r, g, b);
    HorizontalPassIsChannel(Reds(src), w, h, radius);
    HorizontalPassIsChannel(Greens(src), w, h, radius);
    HorizontalPassIsChannel(Blues(src), w, h, radius);
    BlurColumns(pix, r, g, b, w, h, radius, dv, stack, vmin);
  }

  /** `fastblur(sentBitmap, radius)`: null when radius < 1, otherwise a
      new bitmap of the same size holding the Stack Blur of sentBitmap's
      pixels; sentBitmap itself is left as it was. The preconditions are
      the sizes for which no Java `int` computation of the method
      overflows. */
  method FastBlur(sentBitmap: array2<Pixel>, radius: int) returns (blurred: array2?<Pixel>)
    requires 1 <= sentBitmap.Length0 && 1 <= sentBitmap.Length1
    requires sentBitmap.Length1 * sentBitmap.Length0 <= SampleSize.IntMax
    requires radius >= 1 ==>
               radius <= MaxRadius && radius * sentBitmap.Length1 <= SampleSize.IntMax + 1
               && sentBitmap.Length1 + radius <= SampleSize.IntMax && sentBitmap.Length0 + radius <= SampleSize.IntMax
    ensures radius < 1 <==> blurred == null
    ensures blurred != null ==>
              fresh(blurred)
              && blurred.Length0 == sentBitmap.Length0 && blurred.Length1 == sentBitmap.Length1
              && Pixels(blurred) == StackBlur(Pixels(sentBitmap), sentBitmap.Length1, sentBitmap.Length0, radius)
  {
    var bitmap := CopyBitmap(sentBitmap);
    if radius < 1 {
      return null;
    }
    var w, h := bitmap.Length1, bitmap.Length0;
    var pix := GetPixels(bitmap);
    BlurPixels(pix, w, h, radius);
    SetPixels(bitmap, pix);
    return bitmap;
  }
}
