/**
 * Texture pixel formats, the process-wide default format for images with
 * alpha, and the choice of format for a decoded image.
 */
module PixelFormats {

  /** The pixel formats a CCTexture2D is created with from a decoded image. */
  datatype PixelFormat = RGBA8888 | RGB888 | RGB565 | A8 | RGBA4444 | RGB5A1

  /** kCCTexture2DPixelFormat_Default: 32-bit RGBA. */
  const DefaultFormat: PixelFormat := RGBA8888

  /** The process-wide setting g_defaultAlphaPixelFormat. */
  datatype Settings = Settings(defaultAlphaPixelFormat: PixelFormat)

  /** The setting at process start. */
  const InitialSettings: Settings := Settings(DefaultFormat)

  function SetDefaultAlphaPixelFormat(s: Settings, f: PixelFormat): (r: Settings)
    ensures DefaultAlphaPixelFormat(r) == f
  {
    s.(defaultAlphaPixelFormat := f)
  }

  function DefaultAlphaPixelFormat(s: Settings): PixelFormat
  {
    s.defaultAlphaPixelFormat
  }

  /** The formats whose texels are repacked into 16 bits before upload. */
  predicate IsSixteenBit(f: PixelFormat)
  {
    f == RGB565 || f == RGBA4444 || f == RGB5A1
  }

  /**
   * Bytes per texel of the buffer built from the image before any repacking:
   * three for RGB888, four (an RGBA layout) for every other format, A8 included.
   */
  function IntermediateBytes(f: PixelFormat): nat
  {
    if f == RGB888 then 3 else 4
  }

  /** Bytes per texel of the buffer that is finally handed to initWithData. */
  function UploadBytes(f: PixelFormat): nat
  {
    if IsSixteenBit(f) then 2 else IntermediateBytes(f)
  }

  /**
   * The format chosen for an image from its colour space, alpha flag and bits
   * per component. An image without a colour space is a mask.
   */
  function SelectFormat(hasColorSpace: bool, hasAlpha: bool, bitsPerComponent: nat, s: Settings): (f: PixelFormat)
    ensures !hasColorSpace ==> f == A8
    ensures hasColorSpace && hasAlpha ==> f == DefaultAlphaPixelFormat(s)
    ensures hasColorSpace && !hasAlpha ==> (f == RGB888 <==> bitsPerComponent >= 8)
    ensures hasColorSpace && !hasAlpha ==> (f == RGB565 <==> bitsPerComponent < 8)
  {
    if hasColorSpace then
      if hasAlpha then DefaultAlphaPixelFormat(s)
      else if bitsPerComponent >= 8 then RGB888
      else RGB565
    else A8
  }

  /** After setting the default, an image with colour space and alpha selects it. */
  lemma SelectAfterSetDefault(s: Settings, f: PixelFormat, bitsPerComponent: nat)
    ensures SelectFormat(true, true, bitsPerComponent, SetDefaultAlphaPixelFormat(s, f)) == f
  {
  }

  /** The default alpha format is the only setting the selection reads. */
  lemma SelectionReadsOnlyAlphaDefault(hasColorSpace: bool, hasAlpha: bool, bpc: nat, s1: Settings, s2: Settings)
    requires !(hasColorSpace && hasAlpha) || DefaultAlphaPixelFormat(s1) == DefaultAlphaPixelFormat(s2)
    ensures SelectFormat(hasColorSpace, hasAlpha, bpc, s1) == SelectFormat(hasColorSpace, hasAlpha, bpc, s2)
  {
  }

  /**
   * Which images end up A8: every mask, and alpha images with a colour space
   * when A8 has been made the default.
   */
  lemma SelectsA8Exactly(hasColorSpace: bool, hasAlpha: bool, bpc: nat, s: Settings)
    ensures SelectFormat(hasColorSpace, hasAlpha, bpc, s) == A8
        <==> !hasColorSpace || (hasAlpha && DefaultAlphaPixelFormat(s) == A8)
  {
  }

  /** A 16-bit format other than RGB565 is only ever chosen through the default. */
  lemma CompactAlphaFormatsOnlyByDefault(hasColorSpace: bool, hasAlpha: bool, bpc: nat, s: Settings)
    requires SelectFormat(hasColorSpace, hasAlpha, bpc, s) in {RGBA4444, RGB5A1}
    ensures hasColorSpace && hasAlpha
    ensures DefaultAlphaPixelFormat(s) == SelectFormat(hasColorSpace, hasAlpha, bpc, s)
  {
  }
}
