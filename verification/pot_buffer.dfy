/**
 * The power-of-two texel buffer: the image's rows copied into the top-left
 * corner of a zero-filled buffer, and the repacking of a 32-bit buffer into
 * 16-bit texels. Buffers are row-major byte sequences.
 */
module PotBuffer {
  import opened PixelFormats
  import opened Texels

  /** Position of byte (or texel) x of row y in a buffer of rows of stride units. */
  function Offset(stride: nat, rows: nat, y: nat, x: nat): (k: nat)
    requires y < rows && x < stride
    ensures k < stride * rows
    ensures stride * y <= k < stride * y + stride
  {
    RowFits(stride, rows, y, stride);
    stride * y + x
  }

  /** A row of at most stride units starting at row y stays inside the buffer. */
  lemma RowFits(stride: nat, rows: nat, y: nat, len: nat)
    requires y < rows && len <= stride
    ensures stride * y + len <= stride * rows
  {
    var d: nat := rows - y - 1;
    assert rows == y + 1 + d;
    assert stride * rows == stride * y + stride + stride * d;
  }

  /** Every unit of a later row comes after every unit of an earlier row. */
  lemma RowsOrdered(stride: nat, r1: nat, r2: nat)
    requires r1 < r2
    ensures stride * r1 + stride <= stride * r2
  {
    RowFits(stride, r2, r1, stride);
  }

  /** Every position of the buffer is the offset of exactly one (row, column). */
  lemma OffsetCovers(stride: nat, rows: nat, k: nat) returns (y: nat, x: nat)
    requires k < stride * rows
    ensures y < rows && x < stride && Offset(stride, rows, y, x) == k
  {
    assert stride > 0;
    y := k / stride;
    x := k % stride;
  }

  /** The byte at (y, x) of the padded buffer: image data inside the image, zero outside. */
  function PadByte(src: seq<bv8>, rowLen: nat, height: nat, y: nat, x: nat): bv8
    requires rowLen * height <= |src|
  {
    if y < height && x < rowLen then src[Offset(rowLen, height, y, x)] else 0
  }

  /**
   * dst holds the height rows of rowLen bytes of src at the start of rows of
   * stride bytes, in a buffer of that many rows, and zero everywhere else.
   */
  ghost predicate Padded(dst: seq<bv8>, src: seq<bv8>, rowLen: nat, height: nat, stride: nat, rows: nat)
    requires rowLen * height <= |src|
  {
    && |dst| == stride * rows
    && forall y: nat, x: nat :: y < rows && x < stride ==>
         dst[Offset(stride, rows, y, x)] == PadByte(src, rowLen, height, y, x)
  }

  /** The padded buffer is determined by the image and the dimensions. */
  lemma PaddedUnique(d1: seq<bv8>, d2: seq<bv8>, src: seq<bv8>, rowLen: nat, height: nat, stride: nat, rows: nat)
    requires rowLen * height <= |src|
    requires Padded(d1, src, rowLen, height, stride, rows)
    requires Padded(d2, src, rowLen, height, stride, rows)
    ensures d1 == d2
  {
    forall k | 0 <= k < |d1|
      ensures d1[k] == d2[k]
    {
      var y, x := OffsetCovers(stride, rows, k);
      assert d1[Offset(stride, rows, y, x)] == d2[Offset(stride, rows, y, x)];
    }
  }

  /** When the image fills the buffer, its leading bytes are the padded buffer. */
  lemma PrefixIsPadded(src: seq<bv8>, rowLen: nat, height: nat)
    requires rowLen * height <= |src|
    ensures Padded(src[..rowLen * height], src, rowLen, height, rowLen, height)
  {
  }

  /**
   * When image and buffer dimensions agree, the buffer is exactly the first
   * stride * rows bytes of the image.
   */
  lemma ExactFitIsPrefix(dst: seq<bv8>, src: seq<bv8>, rowLen: nat, height: nat)
    requires rowLen * height <= |src|
    requires Padded(dst, src, rowLen, height, rowLen, height)
    ensures dst == src[..rowLen * height]
  {
    PrefixIsPadded(src, rowLen, height);
    PaddedUnique(dst, src[..rowLen * height], src, rowLen, height, rowLen, height);
  }

  /** The first y rows of dst are copied from the image; everything else is still zero. */
  ghost predicate RowsCopied(dst: seq<bv8>, src: seq<bv8>, rowLen: nat, height: nat, stride: nat, rows: nat, y: nat)
    requires rowLen * height <= |src|
  {
    && |dst| == stride * rows
    && forall r: nat, x: nat :: r < rows && x < stride ==>
         dst[Offset(stride, rows, r, x)] == (if r < y then PadByte(src, rowLen, height, r, x) else 0)
  }

  /** Copying image row y into dst extends the copied rows by one. */
  lemma CopyRowStep(dst: seq<bv8>, src: seq<bv8>, rowLen: nat, height: nat, stride: nat, rows: nat, y: nat)
    requires rowLen <= stride && height <= rows && rowLen * height <= |src|
    requires y < height
    requires RowsCopied(dst, src, rowLen, height, stride, rows, y)
    ensures stride * y + rowLen <= |dst| && rowLen * y + rowLen <= |src|
    ensures RowsCopied(dst[..stride * y] + src[rowLen * y..rowLen * y + rowLen] + dst[stride * y + rowLen..],
                       src, rowLen, height, stride, rows, y + 1)
  {
    RowFits(stride, rows, y, rowLen);
    RowFits(rowLen, height, y, rowLen);
    var off := stride * y;
    var from := rowLen * y;
    var next := dst[..off] + src[from..from + rowLen] + dst[off + rowLen..];
    assert |next| == |dst|;
    forall r: nat, x: nat | r < rows && x < stride
      ensures next[Offset(stride, rows, r, x)] == (if r < y + 1 then PadByte(src, rowLen, height, r, x) else 0)
    {
      var k := Offset(stride, rows, r, x);
      if r < y {
        RowsOrdered(stride, r, y);
        assert next[k] == dst[k];
      } else if r == y {
        if x < rowLen {
          assert next[k] == src[from + x];
          assert from + x == Offset(rowLen, height, y, x);
        } else {
          assert next[k] == dst[k];
        }
      } else {
        RowsOrdered(stride, y, r);
        assert next[k] == dst[k];
      }
    }
  }

  /** A zero-filled buffer with every image row copied into place. */
  method CopyRows(src: seq<bv8>, rowLen: nat, height: nat, stride: nat, rows: nat) returns (dst: seq<bv8>)
    requires rowLen <= stride && height <= rows && rowLen * height <= |src|
    ensures Padded(dst, src, rowLen, height, stride, rows)
  {
    dst := seq(stride * rows, _ => 0 as bv8);
    var y := 0;
    while y < height
      invariant 0 <= y <= height
      invariant RowsCopied(dst, src, rowLen, height, stride, rows, y)
    {
      CopyRowStep(dst, src, rowLen, height, stride, rows, y);
      dst := dst[..stride * y] + src[rowLen * y..rowLen * y + rowLen] + dst[stride * y + rowLen..];
      y := y + 1;
    }
  }

  /**
   * Copy a width x height image of bpp bytes per texel into a potWide x potHigh
   * buffer: a bulk copy when the dimensions agree, otherwise a zero-filled
   * buffer and one copy per image row.
   */
  method CopyIntoPot(src: seq<bv8>, width: nat, height: nat, potWide: nat, potHigh: nat, bpp: nat)
    returns (dst: seq<bv8>)
    requires width <= potWide && height <= potHigh
    requires width * bpp * height <= |src|
    ensures |dst| == potHigh * potWide * bpp
    ensures Padded(dst, src, width * bpp, height, potWide * bpp, potHigh)
  {
    var rowLen := width * bpp;
    var stride := potWide * bpp;
    WiderRow(width, potWide, bpp);
    assert stride * potHigh == potHigh * potWide * bpp;
    if width == potWide && height == potHigh {
      dst := src[..rowLen * height];
      PrefixIsPadded(src, rowLen, height);
    } else {
      dst := CopyRows(src, rowLen, height, stride, potHigh);
    }
  }

  /** A row of a wider buffer is at least as long. */
  lemma WiderRow(width: nat, potWide: nat, bpp: nat)
    requires width <= potWide
    ensures width * bpp <= potWide * bpp
  {
    var d: nat := potWide - width;
    assert potWide * bpp == width * bpp + d * bpp;
  }

  /** The image texel at (y, x), or the zero texel outside the image. */
  function ImageTexel(src: seq<bv8>, width: nat, height: nat, y: nat, x: nat): bv32
    requires width * height * 4 <= |src|
  {
    if y < height && x < width then Texel32At(src, Offset(width, height, y, x)) else 0
  }

  /**
   * out holds, at every texel of the potWide x potHigh buffer, the 16-bit
   * repacking of the image texel at the same position, or of zero outside it.
   */
  ghost predicate RepackedFrom(out: seq<bv8>, src: seq<bv8>, width: nat, height: nat, potWide: nat, potHigh: nat, f: PixelFormat)
    requires width * height * 4 <= |src|
    requires IsSixteenBit(f)
  {
    && |out| == potHigh * potWide * 2
    && forall y: nat, x: nat :: y < potHigh && x < potWide ==>
         Texel16At(out, Offset(potWide, potHigh, y, x)) == Kernel(f, ImageTexel(src, width, height, y, x))
  }

  /** Repack a buffer of 32-bit texels into 16-bit texels, texel by texel. */
  method Repack(data: seq<bv8>, texels: nat, f: PixelFormat) returns (out: seq<bv8>)
    requires IsSixteenBit(f)
    requires |data| == texels * 4
    ensures |out| == texels * 2
    ensures forall i: nat :: i < texels ==> Texel16At(out, i) == Kernel(f, Texel32At(data, i))
  {
    out := [];
    var i := 0;
    while i < texels
      invariant 0 <= i <= texels
      invariant |out| == 2 * i
      invariant forall j: nat :: j < i ==> Texel16At(out, j) == Kernel(f, Texel32At(data, j))
    {
      out := out + Le16Bytes(Kernel(f, Texel32At(data, i)));
      i := i + 1;
    }
  }

  /** Byte c of texel (y, x) sits at byte 4x + c of row y. */
  lemma TexelByteOffset(potWide: nat, potHigh: nat, y: nat, x: nat, c: nat)
    requires y < potHigh && x < potWide && c < 4
    ensures 4 * x + c < potWide * 4
    ensures Offset(potWide * 4, potHigh, y, 4 * x + c) == 4 * Offset(potWide, potHigh, y, x) + c
  {
  }

  /** Byte c of texel (y, x) of a padded 32-bit buffer. */
  lemma PaddedByteAt(p: seq<bv8>, src: seq<bv8>, width: nat, height: nat, potWide: nat, potHigh: nat, y: nat, x: nat, c: nat)
    requires width <= potWide && height <= potHigh
    requires width * 4 * height <= |src|
    requires Padded(p, src, width * 4, height, potWide * 4, potHigh)
    requires y < potHigh && x < potWide && c < 4
    ensures 4 * Offset(potWide, potHigh, y, x) + c < |p|
    ensures y < height && x < width ==> 4 * Offset(width, height, y, x) + c < |src|
    ensures p[4 * Offset(potWide, potHigh, y, x) + c]
         == (if y < height && x < width then src[4 * Offset(width, height, y, x) + c] else 0)
  {
    TexelByteOffset(potWide, potHigh, y, x, c);
    assert p[Offset(potWide * 4, potHigh, y, 4 * x + c)] == PadByte(src, width * 4, height, y, 4 * x + c);
    if y < height && x < width {
      TexelByteOffset(width, height, y, x, c);
    }
  }

  /** In a padded 32-bit buffer, texel (y, x) is the image texel there, or zero. */
  lemma PaddedTexelAt(p: seq<bv8>, src: seq<bv8>, width: nat, height: nat, potWide: nat, potHigh: nat, y: nat, x: nat)
    requires width <= potWide && height <= potHigh
    requires width * 4 * height <= |src|
    requires Padded(p, src, width * 4, height, potWide * 4, potHigh)
    requires y < potHigh && x < potWide
    ensures Texel32At(p, Offset(potWide, potHigh, y, x)) == ImageTexel(src, width, height, y, x)
  {
    PaddedByteAt(p, src, width, height, potWide, potHigh, y, x, 0);
    PaddedByteAt(p, src, width, height, potWide, potHigh, y, x, 1);
    PaddedByteAt(p, src, width, height, potWide, potHigh, y, x, 2);
    PaddedByteAt(p, src, width, height, potWide, potHigh, y, x, 3);
  }

  /** Repacking a padded 32-bit buffer gives the texel-by-texel repacking of the image. */
  lemma RepackOfPadded(p: seq<bv8>, out: seq<bv8>, src: seq<bv8>, width: nat, height: nat, potWide: nat, potHigh: nat, f: PixelFormat)
    requires IsSixteenBit(f)
    requires width <= potWide && height <= potHigh
    requires width * 4 * height <= |src|
    requires Padded(p, src, width * 4, height, potWide * 4, potHigh)
    requires |out| == potWide * potHigh * 2
    requires forall i: nat :: i < potWide * potHigh ==> Texel16At(out, i) == Kernel(f, Texel32At(p, i))
    ensures RepackedFrom(out, src, width, height, potWide, potHigh, f)
  {
    forall y: nat, x: nat | y < potHigh && x < potWide
      ensures Texel16At(out, Offset(potWide, potHigh, y, x)) == Kernel(f, ImageTexel(src, width, height, y, x))
    {
      var i := Offset(potWide, potHigh, y, x);
      assert Texel16At(out, i) == Kernel(f, Texel32At(p, i));
      PaddedTexelAt(p, src, width, height, potWide, potHigh, y, x);
      assert Texel32At(p, i) == ImageTexel(src, width, height, y, x);
    }
  }
}
