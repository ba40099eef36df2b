# CCTexture2D image textures and volatile-texture cache, modelled in Dafny

This project models the core of cocos2d-x's `CCTexture2D`. That core turns a decoded
image into a GPU texture, and it keeps a cache of texture data so that textures can be
rebuilt after the graphics context is lost. It has three parts:

- **Pixel-format selection** (`pixel_format.dfy`). An image without a colour space is a
  mask and becomes A8. An image with a colour space and alpha gets the process-wide
  default alpha format, RGBA8888 unless it has been changed. An opaque image gets RGB888
  at 8 or more bits per component, and RGB565 otherwise.
- **The power-of-two buffer** (`power_of_two.dfy`, `texels.dfy`, `pot_buffer.dfy`).
  - `initWithImage` rounds both dimensions up to powers of two. It refuses a texture
    larger than the maximum texture size.
  - The image rows are copied into the top-left corner of a zero-filled buffer of
    `POTWide * POTHigh * bpp` bytes. `bpp` is 3 for RGB888 and 4 otherwise. When the
    sizes already match, the copy is a bulk copy.
  - For RGB565, RGBA4444 and RGB5A1, the 32-bit texels are then repacked into 16 bits.
- **The volatile-texture cache** (`volatile_texture.dfy`, `texture2d.dfy`).
  - The cache is a list of records keyed by texture, plus an `isReloading` flag.
  - `addTextureWithData` finds or creates the texture's record and stores a private copy
    of the data in it.
  - `removeTexture` deletes the texture's record.
  - `reloadAllTextures` raises the flag and replays every record through `initWithData`.
    That call re-enters `addTextureWithData`, which must do nothing while the flag is up.

Bytes are `bv8`, texels are `bv32`/`bv16`, and buffers are row-major byte sequences.
The model reads texels from memory the way a little-endian host does: red is byte 0,
matching `(p >> 0) & 0xFF` in the kernels, and a 16-bit texel is stored low byte first.
The maximum texture size and `ccNextPOT` are parameters of `Texture2D.InitWithImage`.
`ccNextPOT` is only required never to round down, which the row copy needs to stay in
bounds. `PowerOfTwo.NextPOT` is a reference rounding function that meets this
requirement. The GPU upload is abstract: `initWithData` yields the texture state it
leaves, and a replay yields the list of uploads it issues, each with the texture state it
leaves.

The code has no guard for these cases:

- `addTextureWithData` never checks its data argument for null.
- `reloadAllTextures` is not guarded against being called while already reloading.
- A single upload cannot fail, because `initWithData` always returns true.
- A null image buffer is caught only by `NSAssert`. The model reports it as
  `NullImageData`.
- A record keeps no premultiplied-alpha flag, and `initWithData` clears the flag. So a
  texture built from a premultiplied image reports itself as not premultiplied after a
  reload (`Texture2D.ReloadClearsPremultiplied`).

## Model

| member | source | states |
|---|---|---|
| `PixelFormats.SetDefaultAlphaPixelFormat` | cocos2dx/textures/CCTexture2D.cpp:728-737 | after setting the default alpha format to f, reading it back gives f |
| `PixelFormats.SelectFormat` | cocos2dx/textures/CCTexture2D.cpp:377-406 | no colour space gives A8 whatever the alpha flag and depth; colour space with alpha gives the default alpha format; colour space without alpha gives RGB888 exactly when bits per component >= 8, RGB565 exactly when below |
| `PixelFormats.SelectAfterSetDefault` | cocos2dx/textures/CCTexture2D.cpp:384-387 | once the default is set to f, every image with colour space and alpha selects f |
| `PixelFormats.SelectionReadsOnlyAlphaDefault` | cocos2dx/textures/CCTexture2D.cpp:382-406 | two settings with the same default alpha format select the same format for every image, and opaque images and masks ignore the setting entirely |
| `PixelFormats.SelectsA8Exactly` | cocos2dx/textures/CCTexture2D.cpp:382-406 | an image is uploaded as A8 if and only if it has no colour space, or has alpha while A8 is the default |
| `PixelFormats.CompactAlphaFormatsOnlyByDefault` | cocos2dx/textures/CCTexture2D.cpp:176-178 | RGBA4444 or RGB5A1 is chosen only for an image with colour space and alpha, and only as the default alpha format |
| `PowerOfTwo.NextPOT` | cocos2dx/textures/CCTexture2D.cpp:352-353 | the rounded dimension is a power of two, at least the input, and no larger than any power of two at least the input |
| `PowerOfTwo.NextPOTFixesPowers` | cocos2dx/textures/CCTexture2D.cpp:694 | rounding leaves x unchanged if and only if x is already a power of two |
| `PowerOfTwo.NextPOTRoundsUp` | cocos2dx/textures/CCTexture2D.cpp:352-353 | rounding never shrinks a dimension, so the reference rounding meets initWithImage's requirement |
| `Texels.Le32` | cocos2dx/textures/CCTexture2D.cpp:494-498 | the 32-bit texel read from four bytes gives back byte 0, 1, 2, 3 under the masks `>> 0, 8, 16, 24 & 0xFF` |
| `Texels.Le16Bytes` | cocos2dx/textures/CCTexture2D.cpp:495-498 | the two bytes stored for a 16-bit texel read back as that texel |
| `Texels.PackRGB565` | cocos2dx/textures/CCTexture2D.cpp:491-498 | the 16-bit texel holds R>>3 in bits 11-15, G>>2 in bits 5-10, B>>3 in bits 0-4, with no field overlapping another; the 32-bit expression fits in 16 bits |
| `Texels.PackRGBA4444` | cocos2dx/textures/CCTexture2D.cpp:503-514 | the texel holds the top four bits of R, G, B and A in bits 12-15, 8-11, 4-7 and 0-3 |
| `Texels.PackRGB5A1` | cocos2dx/textures/CCTexture2D.cpp:519-530 | the texel holds R>>3 in bits 11-15, G>>3 in bits 6-10, B>>3 in bits 1-5 and A>>7 in bit 0 |
| `Texels.KernelOfZero` | cocos2dx/textures/CCTexture2D.cpp:491-534 | a zero padding texel repacks to a zero texel in all three 16-bit formats |
| `Texels.RGBA4444Example` | cocos2dx/textures/CCTexture2D.cpp:509-514 | (R, G, B, A) = (255, 128, 64, 255) repacks to 0xF84F as RGBA4444 |
| `Texels.RGB565AndRGB5A1Example` | cocos2dx/textures/CCTexture2D.cpp:497-530 | the same texel repacks to 0xFC08 as RGB565 and 0xFC11 as RGB5A1 |
| `PotBuffer.Offset` | cocos2dx/textures/CCTexture2D.cpp:452 | byte x of row y of a buffer with rows of stride bytes lies in that row and inside the buffer |
| `PotBuffer.CopyRows` | cocos2dx/textures/CCTexture2D.cpp:442-454 | zero-filling and copying each image row to `POTWide*bpp*y` gives the padded buffer: image bytes at (y, x) inside the image, zero in the right-hand columns and the rows below |
| `PotBuffer.CopyIntoPot` | cocos2dx/textures/CCTexture2D.cpp:434-478 | both the bulk-copy and the row-copy branch produce a buffer of `POTHigh*POTWide*bpp` bytes that is the padded image |
| `PotBuffer.PaddedUnique` | cocos2dx/textures/CCTexture2D.cpp:442-454 | the padded buffer is fully determined by the image and the dimensions: every byte is either a copied image byte or zero |
| `PotBuffer.PrefixIsPadded` | cocos2dx/textures/CCTexture2D.cpp:437-441 | when the image already has power-of-two dimensions, its leading bytes are the padded buffer |
| `PotBuffer.ExactFitIsPrefix` | cocos2dx/textures/CCTexture2D.cpp:437-441 | when the image already has power-of-two dimensions, the buffer is exactly the first `POTHigh*POTWide*bpp` bytes of the image |
| `PotBuffer.Repack` | cocos2dx/textures/CCTexture2D.cpp:491-534 | a buffer of n 32-bit texels becomes 2n bytes whose texel i is the kernel applied to input texel i |
| `PotBuffer.RepackOfPadded` | cocos2dx/textures/CCTexture2D.cpp:489-534 | repacking the padded buffer gives, at every (y, x), the kernel of the image texel at (y, x), or of zero outside the image |
| `VolatileTexture.Find` | cocos2dx/textures/CCTexture2D.cpp:98-107 | the search returns the first index holding the texture, or reports that no record holds it |
| `VolatileTexture.Lookup` | cocos2dx/textures/CCTexture2D.cpp:98-107 | a record is found for t exactly when some record in the list belongs to t, and the one found belongs to t |
| `VolatileTexture.Upsert` | cocos2dx/textures/CCTexture2D.cpp:76-115 | after find-or-create, the texture's record is the new one and every other texture's record is unchanged; at most one record per texture is kept; a texture without a record gets a new one appended at the end of the list, and a known texture's record is overwritten where it stands, every other position keeping its record |
| `VolatileTexture.Delete` | cocos2dx/textures/CCTexture2D.cpp:81-86 | deleting the first record of t leaves every other texture's record, removes exactly one record when t had one, and in a one-record-per-texture list leaves none for t; the records before it stay where they are and those after it move up one place, so the list order is kept |
| `VolatileTexture.CopiedBytes` | cocos2dx/textures/CCTexture2D.cpp:124-136 | the cache sizes its copy by the pre-repack layout, 3 bytes per texel for RGB888 and 4 for every other format |
| `VolatileTexture.AddTextureWithData` | cocos2dx/textures/CCTexture2D.cpp:76-138 | as written: while reloading the cache is unchanged; otherwise the texture's one record holds the format, size, content size and a copy of the first `w*h*4` bytes (`w*h*3` for RGB888), which the caller must supply; a new texture's record is appended at the end, a known one is overwritten in place, and the other records keep their positions |
| `VolatileTexture.AddUploadedData` | cocos2dx/textures/CCTexture2D.cpp:76-138 | corrected: the same protocol, list order included, with a copy of the `w*h*UploadBytes(f)` bytes actually uploaded |
| `VolatileTexture.RemoveTexture` | cocos2dx/textures/CCTexture2D.cpp:140-151 | removal keeps the flag and every other texture's record, drops exactly one record when the texture had one, leaves none for it, and keeps the remaining records in their list order |
| `VolatileTexture.WellFormedIsReplayable` | cocos2dx/textures/CCTexture2D.cpp:153-169 | a cache whose records hold exactly the uploaded size holds at least what every replay reads |
| `VolatileTexture.AddTextureWithDataKeepsReplayable` | cocos2dx/textures/CCTexture2D.cpp:124-136 | the as-written copy of `w*h*4` (or `w*h*3`) bytes covers the `w*h*2`, `w*h*3` or `w*h*4` bytes a replay uploads, so recording keeps the cache replayable |
| `VolatileTexture.RemoveTextureKeepsReplayable` | cocos2dx/textures/CCTexture2D.cpp:140-151 | removal keeps the cache replayable |
| `VolatileTexture.AddUploadedDataKeepsWellFormed` | cocos2dx/textures/CCTexture2D.cpp:109-136 | recording keeps one record per texture, each holding data of exactly the size its format and dimensions call for |
| `VolatileTexture.EmptyCacheWellFormed` | cocos2dx/textures/CCTexture2D.cpp:172-173 | the cache starts empty and not reloading, which satisfies the one-record-per-texture, correctly-sized-data invariant |
| `VolatileTexture.RemoveTextureKeepsWellFormed` | cocos2dx/textures/CCTexture2D.cpp:140-151 | removal keeps the same invariant |
| `Texture2D.BuildTextureData` | cocos2dx/textures/CCTexture2D.cpp:377-534 | fails exactly when the image has no buffer; otherwise the result has the selected format, the power-of-two size, the image size as content size, and data that is the padded image or its texel-by-texel repacking, of exactly `POTWide*POTHigh` times 2 bytes for the three repacked formats and times 3 or 4 otherwise |
| `Texture2D.InitWithData` | cocos2dx/textures/CCTexture2D.cpp:268-318 | the upload records the data in the cache (a no-op while reloading) and leaves the texture holding the format, size and data given, not premultiplied |
| `Texture2D.InitPremultipliedATextureWithImage` | cocos2dx/textures/CCTexture2D.cpp:367-547 | a successful build is uploaded and recorded, and the texture takes the image's premultiplied flag; a missing buffer fails and leaves the cache alone |
| `Texture2D.InitWithImage` | cocos2dx/textures/CCTexture2D.cpp:330-366 | a null image fails; the texture is refused exactly when a rounded dimension exceeds the maximum size, and then no buffer is built and the cache is unchanged; an image with a buffer whose rounded dimensions fit always succeeds, built at the rounded size |
| `Texture2D.ReloadAllTextures` | cocos2dx/textures/CCTexture2D.cpp:153-169 | for a cache whose records hold at least the bytes each upload reads (which the as-written copy keeps), the replay leaves every record as it was, ends with the flag down, and issues one upload per record with data, in list order; every replayed texture is left not premultiplied |
| `Texture2D.ReplayedFor` | cocos2dx/textures/CCTexture2D.cpp:153-169 | with one record per texture, a replay uploads to each texture exactly its record's data, once, and nothing to a texture without a record |
| `Texture2D.ReloadReplaysRecord` | cocos2dx/textures/CCTexture2D.cpp:153-169 | uploading an image and then reloading uploads that same image to that texture exactly once, leaving it not premultiplied |
| `Texture2D.NewTextureReplayedLast` | cocos2dx/textures/CCTexture2D.cpp:76-78 | the first upload to a texture the cache does not hold is replayed after every upload already recorded |
| `Texture2D.ReloadClearsPremultiplied` | cocos2dx/textures/CCTexture2D.cpp:310-315 | a texture recorded and then marked premultiplied, as initPremultipliedATextureWithImage does for a premultiplied image, is reloaded with the same image but with the flag cleared, so its state after the reload differs from the state before it |
| `Texture2D.ReloadSkipsRemoved` | cocos2dx/textures/CCTexture2D.cpp:140-169 | a texture removed before the reload receives no upload |
| `Texture2D.RepackedBufferShorterThanCopy` | cocos2dx/textures/CCTexture2D.cpp:124-131 | for every 16-bit texture the image path builds, the buffer is shorter than the `w*h*4` bytes the cache copies |
| `Texture2D.Scenario300x200` | cocos2dx/textures/CCTexture2D.cpp:377-406 | a 300 x 200 alpha image under the initial setting is RGBA8888 at 512 x 256, 4 bytes per texel |

## Left out

- OpenGL calls are not modelled: `glGenTextures`, `glBindTexture`, `glTexImage2D`, tex
  parameters, mipmaps and `glDeleteTextures`. They are foreign GPU calls, and an upload is
  the state it leaves. The new texture name from `glGenTextures` is not modelled either.
- The float fields `m_fMaxS`/`m_fMaxT`, `getContentSize` scaling, `drawAtPoint` and
  `drawInRect` are not modelled. They are floating-point rendering. The content size is
  kept as whole pixel counts.
- PVRTC loading, `initWithString`, `description`, `keepData`/`releaseData`, the getters
  and reference counting via `release()` are not modelled. They delegate to code that is
  not part of this model, or they are formatting or memory wrappers.
- The `CCConfiguration` singleton is not modelled; the maximum texture size is a
  parameter. `ccNextPOT` is not part of this model either. `PowerOfTwo.NextPOT` maps 0 to
  1 and does not model 32-bit wrap-around for inputs above 2^31.
- The NPOT branch is not modelled. It is compiled out and refers to an undeclared
  `uiimage`.
- The `default:` branches of the format switches are unreachable in the model. The model's
  pixel formats are the six formats this file handles, and the header that declares the
  full enumeration is not part of this model.
- Unsigned 32-bit overflow of `w * h * 4` and `POTHigh * POTWide * bpp` is not modelled.
  The maximum texture size keeps these products far below 2^32.
- The A8 path copies 4 bytes per texel, as the source does. The image's own byte layout
  for masks is decided by the image decoder, which is not part of this model.
- The texture destructor is modelled only as its `removeTexture` call
  (`VolatileTexture.RemoveTexture`).
- `Texture2D.InitWithData`: its cache copy is the corrected one from the Findings table
  (`VolatileTexture.AddUploadedData`, `w*h*2` bytes for the 16-bit formats), not the
  `w*h*4` bytes that the `addTextureWithData` call at line 273 copies (lines 126-131). That
  copy reads past the uploaded buffer, so it has no defined result to model.
  `InitPremultipliedATextureWithImage`, `InitWithImage` and the replay therefore describe
  the corrected program.

- The model covers the build with `CC_ENABLE_CACHE_TEXTTURE_DATA` set, where the
  volatile-texture cache is compiled in. Without that macro, `initWithData` records nothing,
  the destructor removes nothing and `reloadAllTextures` does nothing.

## Findings

| source | as written | input that shows it | evidently intended | confidence | as-written member | corrected member |
|---|---|---|---|---|---|---|
| cocos2dx/textures/CCTexture2D.cpp:124-131 | for RGBA4444, RGB5A1 and RGB565, `addTextureWithData` copies `w*h*4` bytes from the buffer handed to `initWithData`, but that buffer is the repacked one of `POTHigh*POTWide*2` bytes (lines 493, 505, 521, then 538), so the copy reads past its end | a 1 x 1 image with a colour space, no alpha and 5 bits per component: the RGB565 buffer is 2 bytes and the cache copies 4 | copy `w*h*2` bytes for the three 16-bit formats, the size of the uploaded buffer | high; not executed | `VolatileTexture.AddTextureWithData` (its requires cannot be met), shown by `Texture2D.RepackedBufferShorterThanCopy` | `VolatileTexture.AddUploadedData`, with `Texture2D.ReloadReplaysRecord` |
