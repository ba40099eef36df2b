/**
 * CCTexture2D's image path: the format chosen for a decoded image, the
 * power-of-two buffer built from it, the upload through initWithData (which
 * records the data in the volatile-texture cache), and the replay of the cache
 * after the graphics context is lost. The GPU calls themselves are abstract:
 * an upload is the texture state it leaves behind.
 */
module Texture2D {
  import opened Wrappers
  import opened PixelFormats
  import opened PowerOfTwo
  import opened PotBuffer
  import opened VolatileTexture

  /** A decoded image as ccxImage presents it; data is None for a null buffer. */
  datatype Image = Image(
    width: nat,
    height: nat,
    data: Option<seq<bv8>>,
    hasAlpha: bool,
    bitsPerComponent: nat,
    hasColorSpace: bool,
    isPremultipliedAlpha: bool)

  /** The arguments of initWithData: what is handed to the GPU. */
  datatype TexImage = TexImage(
    pixelFormat: PixelFormat,
    data: seq<bv8>,
    pixelsWide: nat,
    pixelsHigh: nat,
    contentSize: Size)

  /** The observable state of a texture after initialisation. */
  datatype TextureState = TextureState(image: TexImage, hasPremultipliedAlpha: bool)

  /** One upload issued while the cache is replayed, with the state it leaves the texture in. */
  datatype Upload = Upload(texture: TextureId, state: TextureState)

  datatype InitError =
    | NoImage         // initWithImage was given a null image
    | TooLarge        // a power-of-two dimension exceeds the maximum texture size
    | NullImageData   // the image has no pixel buffer

  function SelectedFormat(image: Image, s: Settings): PixelFormat
  {
    SelectFormat(image.hasColorSpace, image.hasAlpha, image.bitsPerComponent, s)
  }

  /** The image buffer holds every texel in the layout its format is read with. */
  predicate DataCovers(image: Image, s: Settings)
  {
    image.data.Some? ==>
      image.width * image.height * IntermediateBytes(SelectedFormat(image, s)) <= |image.data.value|
  }

  /** Bytes initWithData reads for a texture image of its declared format and size. */
  function UploadLength(t: TexImage): nat
  {
    t.pixelsWide * t.pixelsHigh * UploadBytes(t.pixelFormat)
  }

  /**
   * t is the texture image built from image in a potWide x potHigh buffer:
   * the selected format, the padded copy of the image for 32- and 24-bit
   * layouts, the texel-by-texel repacking of it for the 16-bit formats.
   */
  ghost predicate BuiltFrom(t: TexImage, image: Image, potWide: nat, potHigh: nat, s: Settings)
    requires image.data.Some? && DataCovers(image, s)
  {
    var f := SelectedFormat(image, s);
    var bpp := IntermediateBytes(f);
    var src := image.data.value;
    && t.pixelFormat == f
    && t.pixelsWide == potWide
    && t.pixelsHigh == potHigh
    && t.contentSize == Size(image.width, image.height)
    && |t.data| == UploadLength(t)
    && (!IsSixteenBit(f) ==> Padded(t.data, src, image.width * bpp, image.height, potWide * bpp, potHigh))
    && (IsSixteenBit(f) ==> RepackedFrom(t.data, src, image.width, image.height, potWide, potHigh, f))
  }

  /**
   * The pixel work of initPremultipliedATextureWithImage: select the format,
   * copy the image into the power-of-two buffer, repack for 16-bit formats.
   */
  method BuildTextureData(image: Image, potWide: nat, potHigh: nat, s: Settings) returns (r: Result<TexImage, InitError>)
    requires image.width <= potWide && image.height <= potHigh
    requires DataCovers(image, s)
    ensures r.Failure? <==> image.data.None?
    ensures r.Failure? ==> r.error == NullImageData
    ensures r.Success? ==> image.data.Some? && BuiltFrom(r.value, image, potWide, potHigh, s)
  {
    var f := SelectedFormat(image, s);
    if image.data.None? {
      return Failure(NullImageData);
    }
    var src := image.data.value;
    var bpp := IntermediateBytes(f);
    var buf := CopyIntoPot(src, image.width, image.height, potWide, potHigh, bpp);
    if IsSixteenBit(f) {
      var out := Repack(buf, potWide * potHigh, f);
      RepackOfPadded(buf, out, src, image.width, image.height, potWide, potHigh, f);
      buf := out;
    }
    r := Success(TexImage(f, buf, potWide, potHigh, Size(image.width, image.height)));
  }

  /** The cache record an upload of t to texture tt leaves. */
  function RecordOf(tt: TextureId, t: TexImage): Record
  {
    Record(tt, Some(t.data), t.pixelFormat, t.pixelsWide, t.pixelsHigh, t.contentSize)
  }

  /**
   * initWithData: record the data in the cache (a no-op while reloading) and
   * upload it; the texture takes the format, size and data uploaded.
   */
  function InitWithData(c: Cache, tt: TextureId, t: TexImage): (r: (Cache, TextureState))
    requires UploadLength(t) <= |t.data|
    ensures Recorded(c, r.0, RecordOf(tt, t.(data := t.data[..UploadLength(t)])))
    ensures r.1.image == t && !r.1.hasPremultipliedAlpha
  {
    (AddUploadedData(c, tt, t.data, t.pixelFormat, t.pixelsWide, t.pixelsHigh, t.contentSize),
     TextureState(t, false))
  }

  /**
   * initPremultipliedATextureWithImage: build the texture image, upload it
   * through initWithData, then take the image's premultiplied-alpha flag.
   */
  method InitPremultipliedATextureWithImage(c: Cache, tt: TextureId, image: Image, potWide: nat, potHigh: nat, s: Settings)
    returns (c': Cache, r: Result<TextureState, InitError>)
    requires image.width <= potWide && image.height <= potHigh
    requires DataCovers(image, s)
    ensures r.Failure? <==> image.data.None?
    ensures r.Failure? ==> r.error == NullImageData && c' == c
    ensures r.Success? ==> image.data.Some? && BuiltFrom(r.value.image, image, potWide, potHigh, s)
    ensures r.Success? ==> r.value.hasPremultipliedAlpha == image.isPremultipliedAlpha
    ensures r.Success? ==> Recorded(c, c', RecordOf(tt, r.value.image))
  {
    var built := BuildTextureData(image, potWide, potHigh, s);
    if built.Failure? {
      return c, Failure(built.error);
    }
    var t := built.value;
    assert t.data[..UploadLength(t)] == t.data;
    var (c1, st) := InitWithData(c, tt, t);
    c' := c1;
    r := Success(st.(hasPremultipliedAlpha := image.isPremultipliedAlpha));
  }

  /**
   * initWithImage: round both dimensions up with nextPOT, refuse a texture
   * larger than maxTextureSize, otherwise build and upload it.
   */
  method InitWithImage(c: Cache, tt: TextureId, image: Option<Image>, s: Settings, maxTextureSize: nat, nextPOT: nat -> nat)
    returns (c': Cache, r: Result<TextureState, InitError>)
    requires forall n: nat :: n <= nextPOT(n)
    requires image.Some? ==> DataCovers(image.value, s)
    ensures r.Failure? ==> c' == c
    ensures image.None? ==> r == Failure(NoImage)
    ensures image.Some? && image.value.data.Some?
      && nextPOT(image.value.width) <= maxTextureSize && nextPOT(image.value.height) <= maxTextureSize
      ==> r.Success?
    ensures image.Some? ==>
      (r == Failure(TooLarge) <==> nextPOT(image.value.height) > maxTextureSize || nextPOT(image.value.width) > maxTextureSize)
    ensures image.Some? ==>
      (r == Failure(NullImageData) <==> r != Failure(TooLarge) && image.value.data.None?)
    ensures r.Success? ==>
      && image.Some? && image.value.data.Some?
      && BuiltFrom(r.value.image, image.value, nextPOT(image.value.width), nextPOT(image.value.height), s)
      && r.value.hasPremultipliedAlpha == image.value.isPremultipliedAlpha
      && Recorded(c, c', RecordOf(tt, r.value.image))
  {
    if image.None? {
      return c, Failure(NoImage);
    }
    var img := image.value;
    var potWide := nextPOT(img.width);
    var potHigh := nextPOT(img.height);
    if potHigh > maxTextureSize || potWide > maxTextureSize {
      return c, Failure(TooLarge);
    }
    c', r := InitPremultipliedATextureWithImage(c, tt, img, potWide, potHigh, s);
  }

  /** The texture image a record replays. */
  function ReplayOf(rec: Record): TexImage
    requires rec.data.Some?
  {
    TexImage(rec.pixelFormat, rec.data.value, rec.pixelsWide, rec.pixelsHigh, rec.contentSize)
  }

  /**
   * The state a replayed texture is left in: the record's image, and, since
   * initWithData clears the flag and the record does not keep it, not
   * premultiplied.
   */
  function Reloaded(rec: Record): TextureState
    requires rec.data.Some?
  {
    TextureState(ReplayOf(rec), false)
  }

  /** The uploads a replay of records rs issues: one per record with data, in list order. */
  function Replayed(rs: seq<Record>): seq<Upload>
  {
    if |rs| == 0 then []
    else (if rs[0].data.Some? then [Upload(rs[0].texture, Reloaded(rs[0]))] else []) + Replayed(rs[1..])
  }

  lemma {:induction false} ReplayedSnoc(rs: seq<Record>, x: Record)
    ensures Replayed(rs + [x]) == Replayed(rs) + (if x.data.Some? then [Upload(x.texture, Reloaded(x))] else [])
    decreases |rs|
  {
    if |rs| == 0 {
      assert rs + [x] == [x];
    } else {
      var head := if rs[0].data.Some? then [Upload(rs[0].texture, Reloaded(rs[0]))] else [];
      assert (rs + [x])[0] == rs[0];
      assert (rs + [x])[1..] == rs[1..] + [x];
      assert Replayed(rs + [x]) == head + Replayed(rs[1..] + [x]);
      ReplayedSnoc(rs[1..], x);
      assert Replayed(rs) == head + Replayed(rs[1..]);
    }
  }

  /**
   * reloadAllTextures: raise isReloading, replay every record that has data
   * through initWithData, lower the flag. The uploads re-enter the cache while
   * the flag is up and so leave it as it was.
   */
  method ReloadAllTextures(c: Cache) returns (c': Cache, uploads: seq<Upload>)
    requires Replayable(c)
    ensures c' == c.(isReloading := false)
    ensures uploads == Replayed(c.textures)
    ensures forall k :: 0 <= k < |uploads| ==> !uploads[k].state.hasPremultipliedAlpha
  {
    var cache := c.(isReloading := true);
    uploads := [];
    var i := 0;
    while i < |c.textures|
      invariant 0 <= i <= |c.textures|
      invariant cache == c.(isReloading := true)
      invariant uploads == Replayed(c.textures[..i])
      invariant forall k :: 0 <= k < |uploads| ==> !uploads[k].state.hasPremultipliedAlpha
    {
      var vt := c.textures[i];
      assert c.textures[..i + 1] == c.textures[..i] + [vt];
      ReplayedSnoc(c.textures[..i], vt);
      if vt.data.Some? {
        assert UploadLength(ReplayOf(vt)) <= |vt.data.value|;
        var (cache1, st) := InitWithData(cache, vt.texture, ReplayOf(vt));
        cache := cache1;
        uploads := uploads + [Upload(vt.texture, st)];
      }
      i := i + 1;
    }
    assert c.textures[..i] == c.textures;
    c' := cache.(isReloading := false);
  }

  /** The states the uploads to texture t leave it in, in order. */
  function UploadsFor(us: seq<Upload>, t: TextureId): seq<TextureState>
  {
    if |us| == 0 then []
    else (if us[0].texture == t then [us[0].state] else []) + UploadsFor(us[1..], t)
  }

  lemma {:induction false} UploadsForAppend(a: seq<Upload>, b: seq<Upload>, t: TextureId)
    ensures UploadsFor(a + b, t) == UploadsFor(a, t) + UploadsFor(b, t)
    decreases |a|
  {
    if |a| == 0 {
      assert a + b == b;
    } else {
      assert (a + b)[1..] == a[1..] + b;
      UploadsForAppend(a[1..], b, t);
    }
  }

  /** What a replay uploads to t: the data of t's record if it has any, otherwise nothing. */
  function ExpectedReplay(rec: Option<Record>): seq<TextureState>
  {
    if rec.Some? && rec.value.data.Some? then [Reloaded(rec.value)] else []
  }

  /** In a cache with one record per texture, a replay uploads to t exactly its record's data, once. */
  lemma {:induction false} ReplayedFor(rs: seq<Record>, t: TextureId)
    requires Unique(rs)
    ensures UploadsFor(Replayed(rs), t) == ExpectedReplay(Lookup(rs, t))
    decreases |rs|
  {
    if |rs| > 0 {
      var head := if rs[0].data.Some? then [Upload(rs[0].texture, Reloaded(rs[0]))] else [];
      UploadsForAppend(head, Replayed(rs[1..]), t);
      assert Unique(rs[1..]);
      ReplayedFor(rs[1..], t);
      if rs[0].texture == t {
        assert Lookup(rs[1..], t) == None by {
          forall j | 0 <= j < |rs[1..]|
            ensures rs[1..][j].texture != t
          {
            assert rs[1..][j] == rs[j + 1];
          }
        }
      }
    }
  }

  /**
   * Recording an upload and then reloading uploads the same texture image
   * to that texture exactly once.
   */
  lemma ReloadReplaysRecord(c: Cache, tt: TextureId, t: TexImage)
    requires !c.isReloading && Unique(c.textures)
    requires |t.data| == UploadLength(t)
    ensures UploadsFor(Replayed(InitWithData(c, tt, t).0.textures), tt) == [TextureState(t, false)]
  {
    var c1 := InitWithData(c, tt, t).0;
    assert t.data[..UploadLength(t)] == t.data;
    ReplayedFor(c1.textures, tt);
  }

  /**
   * The first upload to a texture the cache does not hold yet is replayed
   * after every upload already recorded.
   */
  lemma NewTextureReplayedLast(c: Cache, tt: TextureId, t: TexImage)
    requires !c.isReloading && Lookup(c.textures, tt).None?
    requires |t.data| == UploadLength(t)
    ensures Replayed(InitWithData(c, tt, t).0.textures) == Replayed(c.textures) + [Upload(tt, TextureState(t, false))]
  {
    assert t.data[..UploadLength(t)] == t.data;
    ReplayedSnoc(c.textures, RecordOf(tt, t));
  }

  /**
   * A texture initialised from a premultiplied image (its state st is what
   * initPremultipliedATextureWithImage leaves: initWithData's recording and
   * upload, then the image's flag) comes back from a reload with the same
   * image but no longer premultiplied.
   */
  lemma ReloadClearsPremultiplied(c: Cache, tt: TextureId, st: TextureState)
    requires !c.isReloading && Unique(c.textures)
    requires |st.image.data| == UploadLength(st.image) && st.hasPremultipliedAlpha
    ensures UploadsFor(Replayed(InitWithData(c, tt, st.image).0.textures), tt) == [st.(hasPremultipliedAlpha := false)]
    ensures UploadsFor(Replayed(InitWithData(c, tt, st.image).0.textures), tt) != [st]
  {
    ReloadReplaysRecord(c, tt, st.image);
    assert [st.(hasPremultipliedAlpha := false)][0] != [st][0];
  }

  /** A texture removed from the cache receives no upload on reload. */
  lemma ReloadSkipsRemoved(c: Cache, t: TextureId)
    requires Unique(c.textures)
    ensures UploadsFor(Replayed(RemoveTexture(c, t).textures), t) == []
  {
    ReplayedFor(RemoveTexture(c, t).textures, t);
  }

  /**
   * At every call of initWithData from the image path with a 16-bit format,
   * the buffer is shorter than the w * h * 4 bytes addTextureWithData copies.
   */
  lemma RepackedBufferShorterThanCopy(t: TexImage, image: Image, potWide: nat, potHigh: nat, s: Settings)
    requires image.data.Some? && DataCovers(image, s)
    requires BuiltFrom(t, image, potWide, potHigh, s)
    requires IsSixteenBit(t.pixelFormat) && potWide > 0 && potHigh > 0
    ensures |t.data| < t.pixelsWide * t.pixelsHigh * CopiedBytes(t.pixelFormat)
  {
  }

  /** A 300 x 200 image with alpha, under the initial settings, becomes a 512 x 256 RGBA8888 texture. */
  lemma Scenario300x200()
    ensures SelectFormat(true, true, 8, InitialSettings) == RGBA8888
    ensures NextPOT(300) == 512 && NextPOT(200) == 256
    ensures UploadBytes(RGBA8888) == 4
  {
  }
}
