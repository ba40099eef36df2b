/**
 * The volatile-texture cache: one record per texture holding a private copy
 * of the data last uploaded to it, kept in list order so that the textures
 * can be rebuilt after the graphics context is lost, plus the isReloading
 * flag raised while they are being rebuilt.
 */
module VolatileTexture {
  import opened Wrappers
  import opened PixelFormats

  /** Texture identity (the CCTexture2D object's address). */
  type TextureId = nat

  /** Content size in pixels, before rounding to powers of two. */
  datatype Size = Size(width: nat, height: nat)

  datatype Record = Record(
    texture: TextureId,
    data: Option<seq<bv8>>,
    pixelFormat: PixelFormat,
    pixelsWide: nat,
    pixelsHigh: nat,
    contentSize: Size)

  datatype Cache = Cache(textures: seq<Record>, isReloading: bool)

  /** The cache at process start. */
  const EmptyCache: Cache := Cache([], false)

  /** Index of the first record of texture t, if any. */
  function Find(rs: seq<Record>, t: TextureId): (i: Option<nat>)
    ensures i.Some? ==> i.value < |rs| && rs[i.value].texture == t
    ensures i.Some? ==> forall j :: 0 <= j < i.value ==> rs[j].texture != t
    ensures i.None? ==> forall j :: 0 <= j < |rs| ==> rs[j].texture != t
  {
    if |rs| == 0 then None
    else if rs[0].texture == t then Some(0)
    else match Find(rs[1..], t)
      case None => None
      case Some(k) => Some(k + 1)
  }

  /** The record a texture is found under, as a handle-keyed map would give it. */
  function Lookup(rs: seq<Record>, t: TextureId): (r: Option<Record>)
    ensures r.Some? <==> exists j :: 0 <= j < |rs| && rs[j].texture == t
    ensures r.Some? ==> r.value in rs && r.value.texture == t
  {
    match Find(rs, t)
    case None => None
    case Some(i) => Some(rs[i])
  }

  /** At most one record per texture. */
  ghost predicate Unique(rs: seq<Record>)
  {
    forall i, j :: 0 <= i < j < |rs| ==> rs[i].texture != rs[j].texture
  }

  /** Replace the record of rec's texture in place, or append rec if there is none. */
  function Upsert(rs: seq<Record>, rec: Record): (r: seq<Record>)
    ensures Lookup(r, rec.texture) == Some(rec)
    ensures forall t :: t != rec.texture ==> Lookup(r, t) == Lookup(rs, t)
    ensures Unique(rs) ==> Unique(r)
    ensures Lookup(rs, rec.texture).None? ==> |r| == |rs| + 1 && r[..|rs|] == rs && r[|rs|] == rec
    ensures Lookup(rs, rec.texture).Some? ==>
      && |r| == |rs|
      && forall j :: 0 <= j < |rs| && rs[j].texture != rec.texture ==> r[j] == rs[j]
  {
    match Find(rs, rec.texture)
    case Some(i) =>
      var r := rs[i := rec];
      FindFirst(r, rec.texture, i);
      assert forall t :: t != rec.texture ==> Find(r, t) == Find(rs, t) by {
        forall t | t != rec.texture
          ensures Find(r, t) == Find(rs, t)
        {
          SameFind(rs, r, t, i);
        }
      }
      r
    case None =>
      var r := rs + [rec];
      FindFirst(r, rec.texture, |rs|);
      assert forall t :: t != rec.texture ==> Find(r, t) == Find(rs, t) by {
        forall t | t != rec.texture
          ensures Find(r, t) == Find(rs, t)
        {
          SameFind(rs, r, t, |rs|);
        }
      }
      r
  }

  /** A first occurrence is what Find returns. */
  lemma FindFirst(rs: seq<Record>, t: TextureId, i: nat)
    requires i < |rs| && rs[i].texture == t
    requires forall j :: 0 <= j < i ==> rs[j].texture != t
    ensures Find(rs, t) == Some(i)
  {
  }

  /** Find agrees on two lists that differ only at a position not holding t. */
  lemma SameFind(a: seq<Record>, b: seq<Record>, t: TextureId, i: nat)
    requires |a| <= |b| <= |a| + 1 && i <= |a|
    requires |b| == |a| + 1 ==> i == |a|
    requires forall j :: 0 <= j < |a| && j != i ==> a[j] == b[j]
    requires i < |a| ==> a[i].texture != t
    requires i < |b| ==> b[i].texture != t
    ensures Find(a, t) == Find(b, t)
  {
  }

  /** Delete the first record of texture t; nothing happens when there is none. */
  function Delete(rs: seq<Record>, t: TextureId): (r: seq<Record>)
    ensures forall u :: u != t ==> Lookup(r, u) == Lookup(rs, u)
    ensures Unique(rs) ==> Unique(r) && Lookup(r, t) == None
    ensures |r| == |rs| - (if Lookup(rs, t).Some? then 1 else 0)
    ensures forall rec :: rec in r ==> rec in rs
    ensures Find(rs, t).None? ==> r == rs
    ensures Find(rs, t).Some? ==>
      && (forall j :: 0 <= j < Find(rs, t).value ==> r[j] == rs[j])
      && (forall j :: Find(rs, t).value <= j < |r| ==> r[j] == rs[j + 1])
  {
    match Find(rs, t)
    case None => rs
    case Some(i) =>
      var r := rs[..i] + rs[i + 1..];
      assert forall u :: u != t ==> Find(r, u) == ShiftPast(Find(rs, u), i) by {
        forall u | u != t
          ensures Find(r, u) == ShiftPast(Find(rs, u), i)
        {
          FindAfterDelete(rs, i, u);
        }
      }
      DropKeepsUnique(rs, i);
      r
  }

  /** Dropping index i from a list with one record per texture keeps that, and loses rs[i]'s texture. */
  lemma DropKeepsUnique(rs: seq<Record>, i: nat)
    requires i < |rs|
    ensures var r := rs[..i] + rs[i + 1..];
      && (forall rec :: rec in r ==> rec in rs)
      && (Unique(rs) ==> Unique(r) && Find(r, rs[i].texture) == None)
  {
    var r := rs[..i] + rs[i + 1..];
    assert forall j :: 0 <= j < i ==> r[j] == rs[j];
    assert forall j :: i <= j < |r| ==> r[j] == rs[j + 1];
  }

  /** An index into a list, moved down by one when past the deleted position i. */
  function ShiftPast(k: Option<nat>, i: nat): Option<nat>
  {
    match k
    case None => None
    case Some(k) => if k > i then Some(k - 1) else Some(k)
  }

  /** Where a texture other than the deleted one is found after deleting index i. */
  lemma FindAfterDelete(rs: seq<Record>, i: nat, u: TextureId)
    requires i < |rs| && rs[i].texture != u
    ensures Find(rs[..i] + rs[i + 1..], u) == ShiftPast(Find(rs, u), i)
  {
    var r := rs[..i] + rs[i + 1..];
    assert forall j :: 0 <= j < i ==> r[j] == rs[j];
    assert forall j :: i <= j < |r| ==> r[j] == rs[j + 1];
    match Find(rs, u)
    case None =>
    case Some(k) =>
      var e := if k > i then k - 1 else k;
      assert r[e] == rs[k];
      FindFirst(r, u, e);
  }

  /**
   * The effect of recording rec: nothing while the cache is being reloaded;
   * otherwise rec becomes the one record of its texture, every other
   * texture keeps its record, a new texture's record goes to the end of the
   * list, and a known texture's record is replaced where it stands.
   */
  ghost predicate Recorded(c: Cache, r: Cache, rec: Record)
  {
    if c.isReloading then r == c
    else
      && !r.isReloading
      && Lookup(r.textures, rec.texture) == Some(rec)
      && (forall t :: t != rec.texture ==> Lookup(r.textures, t) == Lookup(c.textures, t))
      && (Unique(c.textures) ==> Unique(r.textures))
      && (Lookup(c.textures, rec.texture).None? ==> r.textures == c.textures + [rec])
      && (Lookup(c.textures, rec.texture).Some? ==>
            && |r.textures| == |c.textures|
            && forall j :: 0 <= j < |c.textures| && c.textures[j].texture != rec.texture ==> r.textures[j] == c.textures[j])
  }

  /**
   * Bytes per texel addTextureWithData copies for each format: the layout of
   * the buffer before repacking, whatever the format it is uploaded in.
   */
  function CopiedBytes(f: PixelFormat): (n: nat)
    ensures n == IntermediateBytes(f)
  {
    match f
    case RGBA8888 => 4
    case RGBA4444 => 4
    case RGB5A1 => 4
    case RGB565 => 4
    case A8 => 4
    case RGB888 => 3
  }

  /** addTextureWithData as written: a find-or-create and a copy of w * h * CopiedBytes(f) bytes. */
  function AddTextureWithData(c: Cache, tt: TextureId, d: seq<bv8>, f: PixelFormat, w: nat, h: nat, s: Size): (r: Cache)
    requires w * h * CopiedBytes(f) <= |d|
    ensures Recorded(c, r, Record(tt, Some(d[..w * h * CopiedBytes(f)]), f, w, h, s))
  {
    if c.isReloading then c
    else c.(textures := Upsert(c.textures, Record(tt, Some(d[..w * h * CopiedBytes(f)]), f, w, h, s)))
  }

  /**
   * addTextureWithData with the copy sized by the buffer actually uploaded,
   * w * h * UploadBytes(f) bytes, so that the 16-bit formats are not over-read.
   */
  function AddUploadedData(c: Cache, tt: TextureId, d: seq<bv8>, f: PixelFormat, w: nat, h: nat, s: Size): (r: Cache)
    requires w * h * UploadBytes(f) <= |d|
    ensures Recorded(c, r, Record(tt, Some(d[..w * h * UploadBytes(f)]), f, w, h, s))
  {
    if c.isReloading then c
    else c.(textures := Upsert(c.textures, Record(tt, Some(d[..w * h * UploadBytes(f)]), f, w, h, s)))
  }

  /** removeTexture: delete the first record of t; other records are untouched. */
  function RemoveTexture(c: Cache, t: TextureId): (r: Cache)
    ensures r.isReloading == c.isReloading
    ensures forall u :: u != t ==> Lookup(r.textures, u) == Lookup(c.textures, u)
    ensures Unique(c.textures) ==> Unique(r.textures) && Lookup(r.textures, t) == None
    ensures |r.textures| == |c.textures| - (if Lookup(c.textures, t).Some? then 1 else 0)
    ensures Find(c.textures, t).None? ==> r.textures == c.textures
    ensures Find(c.textures, t).Some? ==>
      var i := Find(c.textures, t).value;
      && (forall j :: 0 <= j < i ==> r.textures[j] == c.textures[j])
      && (forall j :: i <= j < |r.textures| ==> r.textures[j] == c.textures[j + 1])
  {
    c.(textures := Delete(c.textures, t))
  }

  /** A record holds data of the size its format and dimensions call for. */
  ghost predicate WellSized(rec: Record)
  {
    rec.data.Some? && |rec.data.value| == rec.pixelsWide * rec.pixelsHigh * UploadBytes(rec.pixelFormat)
  }

  /** The cache invariant: one record per texture, each holding correctly sized data. */
  ghost predicate WellFormed(c: Cache)
  {
    Unique(c.textures) && forall rec :: rec in c.textures ==> WellSized(rec)
  }

  /**
   * What a replay needs of the cache: every record with data holds at least
   * the bytes its format and dimensions are uploaded from.
   */
  ghost predicate Replayable(c: Cache)
  {
    forall rec :: rec in c.textures && rec.data.Some? ==>
      rec.pixelsWide * rec.pixelsHigh * UploadBytes(rec.pixelFormat) <= |rec.data.value|
  }

  /** A well-formed cache can be replayed. */
  lemma WellFormedIsReplayable(c: Cache)
    requires WellFormed(c)
    ensures Replayable(c)
  {
  }

  /**
   * Recording through addTextureWithData as written keeps the cache
   * replayable: the record's w * h * 4 (or * 3) bytes cover the upload.
   */
  lemma AddTextureWithDataKeepsReplayable(c: Cache, tt: TextureId, d: seq<bv8>, f: PixelFormat, w: nat, h: nat, s: Size)
    requires Replayable(c)
    requires w * h * CopiedBytes(f) <= |d|
    ensures Replayable(AddTextureWithData(c, tt, d, f, w, h, s))
  {
  }

  /** Removing a texture keeps the cache replayable. */
  lemma RemoveTextureKeepsReplayable(c: Cache, t: TextureId)
    requires Replayable(c)
    ensures Replayable(RemoveTexture(c, t))
  {
  }

  /** Recording correctly sized data keeps the cache well formed. */
  lemma AddUploadedDataKeepsWellFormed(c: Cache, tt: TextureId, d: seq<bv8>, f: PixelFormat, w: nat, h: nat, s: Size)
    requires WellFormed(c)
    requires w * h * UploadBytes(f) <= |d|
    ensures WellFormed(AddUploadedData(c, tt, d, f, w, h, s))
  {
  }

  /** The cache starts out well formed. */
  lemma EmptyCacheWellFormed()
    ensures WellFormed(EmptyCache) && !EmptyCache.isReloading
  {
  }

  /** Removing a texture keeps the cache well formed. */
  lemma RemoveTextureKeepsWellFormed(c: Cache, t: TextureId)
    requires WellFormed(c)
    ensures WellFormed(RemoveTexture(c, t))
  {
  }
}
