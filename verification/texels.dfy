/**
 * Texels in memory and the three kernels that repack a 32-bit RGBA texel into
 * a 16-bit RGB565, RGBA4444 or RGB5A1 texel. Memory is read and written as a
 * little-endian host does: the red channel of a 32-bit texel is byte 0.
 */
module Texels {
  import opened PixelFormats

  /** The 32-bit value a little-endian host reads from four consecutive bytes. */
  function Le32(b0: bv8, b1: bv8, b2: bv8, b3: bv8): (p: bv32)
    ensures (p & 0xFF) as bv8 == b0
    ensures ((p >> 8) & 0xFF) as bv8 == b1
    ensures ((p >> 16) & 0xFF) as bv8 == b2
    ensures ((p >> 24) & 0xFF) as bv8 == b3
  {
    b0 as bv32 | (b1 as bv32 << 8) | (b2 as bv32 << 16) | (b3 as bv32 << 24)
  }

  /** The 16-bit value a little-endian host reads from two consecutive bytes. */
  function Le16(lo: bv8, hi: bv8): bv16
  {
    lo as bv16 | (hi as bv16 << 8)
  }

  /** The two bytes a little-endian host stores for a 16-bit value. */
  function Le16Bytes(v: bv16): (b: seq<bv8>)
    ensures |b| == 2 && Le16(b[0], b[1]) == v
  {
    [(v & 0xFF) as bv8, (v >> 8) as bv8]
  }

  /** Texel i of a buffer of 32-bit texels. */
  function Texel32At(buf: seq<bv8>, i: nat): bv32
    requires 4 * i + 3 < |buf|
  {
    Le32(buf[4 * i], buf[4 * i + 1], buf[4 * i + 2], buf[4 * i + 3])
  }

  /** Texel i of a buffer of 16-bit texels. */
  function Texel16At(buf: seq<bv8>, i: nat): bv16
    requires 2 * i + 1 < |buf|
  {
    Le16(buf[2 * i], buf[2 * i + 1])
  }

  // The channels of a 32-bit texel, extracted as the kernels do.
  function Red(p: bv32): bv32   { (p >> 0) & 0xFF }
  function Green(p: bv32): bv32 { (p >> 8) & 0xFF }
  function Blue(p: bv32): bv32  { (p >> 16) & 0xFF }
  function Alpha(p: bv32): bv32 { (p >> 24) & 0xFF }

  /**
   * RGB565: five bits of red, six of green, five of blue, alpha dropped. The
   * expression is evaluated in 32 bits and stored into 16; the conversion
   * loses nothing because the fields end at bit 15.
   */
  function PackRGB565(p: bv32): (r: bv16)
    ensures (r >> 11) as bv32 == Red(p) >> 3
    ensures ((r >> 5) & 0x3F) as bv32 == Green(p) >> 2
    ensures (r & 0x1F) as bv32 == Blue(p) >> 3
  {
    (((Red(p) >> 3) << 11) | ((Green(p) >> 2) << 5) | ((Blue(p) >> 3) << 0)) as bv16
  }

  /** RGBA4444: the top four bits of each channel. */
  function PackRGBA4444(p: bv32): (r: bv16)
    ensures (r >> 12) as bv32 == Red(p) >> 4
    ensures ((r >> 8) & 0xF) as bv32 == Green(p) >> 4
    ensures ((r >> 4) & 0xF) as bv32 == Blue(p) >> 4
    ensures (r & 0xF) as bv32 == Alpha(p) >> 4
  {
    (((Red(p) >> 4) << 12) | ((Green(p) >> 4) << 8) | ((Blue(p) >> 4) << 4) | ((Alpha(p) >> 4) << 0)) as bv16
  }

  /** RGB5A1: five bits of each colour channel and the top bit of alpha. */
  function PackRGB5A1(p: bv32): (r: bv16)
    ensures (r >> 11) as bv32 == Red(p) >> 3
    ensures ((r >> 6) & 0x1F) as bv32 == Green(p) >> 3
    ensures ((r >> 1) & 0x1F) as bv32 == Blue(p) >> 3
    ensures (r & 0x1) as bv32 == Alpha(p) >> 7
  {
    (((Red(p) >> 3) << 11) | ((Green(p) >> 3) << 6) | ((Blue(p) >> 3) << 1) | ((Alpha(p) >> 7) << 0)) as bv16
  }

  /** The kernel used for a 16-bit target format. */
  function Kernel(f: PixelFormat, p: bv32): bv16
    requires IsSixteenBit(f)
  {
    if f == RGB565 then PackRGB565(p)
    else if f == RGBA4444 then PackRGBA4444(p)
    else PackRGB5A1(p)
  }

  /** A zero (padding) texel repacks to a zero texel in every 16-bit format. */
  lemma KernelOfZero(f: PixelFormat)
    requires IsSixteenBit(f)
    ensures Kernel(f, 0) == 0
  {
  }

  /** The worked example: (R, G, B, A) = (255, 128, 64, 255) as RGBA4444. */
  lemma RGBA4444Example()
    ensures PackRGBA4444(Le32(255, 128, 64, 255)) == 0xF84F
  {
  }

  /** The same texel as RGB565 and RGB5A1. */
  lemma RGB565AndRGB5A1Example()
    ensures PackRGB565(Le32(255, 128, 64, 255)) == 0xFC08
    ensures PackRGB5A1(Le32(255, 128, 64, 255)) == 0xFC11
  {
  }
}
