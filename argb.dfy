/** ARGB_8888 pixels and the channel masks fastblur applies to them.

    A pixel is the 32-bit pattern of a Java `int`, read as an unsigned
    number, so each mask and shift of the Java code is a division and a
    remainder by a power of two: `(p & 0xff0000) >> 16` is `(p / 2^16) % 256`
    and `0xff000000 & p` is `(p / 2^24) * 2^24`. */
module Argb {

  const Two8: int := 0x100
  const Two16: int := 0x1_0000
  const Two24: int := 0x100_0000

  /** One pixel: alpha in bits 24-31, red 16-23, green 8-15, blue 0-7. */
  newtype Pixel = x: int | 0 <= x < 0x1_0000_0000

  predicate IsChannel(c: int)
  {
    0 <= c < 256
  }

  /** `(p & 0xff0000) >> 16` */
  function Red(p: Pixel): (c: int)
    ensures IsChannel(c)
  {
    (p as int / Two16) % 256
  }

  /** `(p & 0x00ff00) >> 8` */
  function Green(p: Pixel): (c: int)
    ensures IsChannel(c)
  {
    (p as int / Two8) % 256
  }

  /** `p & 0x0000ff` */
  function Blue(p: Pixel): (c: int)
    ensures IsChannel(c)
  {
    p as int % 256
  }

  /** The alpha byte, bits 24-31. */
  function Alpha(p: Pixel): (a: int)
    ensures IsChannel(a)
  {
    p as int / Two24
  }

  /** `(0xff000000 & p) | (r << 16) | (g << 8) | b`: the alpha byte of p with
      the given colour channels. The fields do not overlap, so the `|` of the
      Java code is a sum. */
  function Pack(p: Pixel, r: int, g: int, b: int): (q: Pixel)
    requires IsChannel(r) && IsChannel(g) && IsChannel(b)
    ensures Alpha(q) == Alpha(p)
    ensures Red(q) == r && Green(q) == g && Blue(q) == b
  {
    var v := Alpha(p) * Two24 + r * Two16 + g * Two8 + b;
    assert v / Two24 == Alpha(p);
    assert v / Two16 == Alpha(p) * 256 + r;
    assert v / Two8 == Alpha(p) * Two16 + r * 256 + g;
    v as Pixel
  }

  /** A pixel is the sum of its four shifted channels. */
  lemma ChannelsDecompose(p: Pixel)
    ensures p as int == Alpha(p) * Two24 + Red(p) * Two16 + Green(p) * Two8 + Blue(p)
  {
    var x := p as int;
    assert x == (x / Two8) * Two8 + x % 256;
    assert x / Two8 == (x / Two16) * 256 + (x / Two8) % 256;
    assert x / Two16 == (x / Two24) * 256 + (x / Two16) % 256;
  }

  /** A pixel is determined by its four channels. */
  lemma PixelFromChannels(p: Pixel, q: Pixel)
    requires Alpha(p) == Alpha(q) && Red(p) == Red(q) && Green(p) == Green(q) && Blue(p) == Blue(q)
    ensures p == q
  {
    ChannelsDecompose(p);
    ChannelsDecompose(q);
  }

  /** Re-packing a pixel's own channels gives the pixel back. */
  lemma PackOwnChannels(p: Pixel)
    ensures Pack(p, Red(p), Green(p), Blue(p)) == p
  {
    PixelFromChannels(Pack(p, Red(p), Green(p), Blue(p)), p);
  }
}
