/** Uploading one plane to its texture, directly or through two pixel buffers that take turns. */
module PlaneUpload {

  import opened Base
  import opened RowCopy

  // ---- capabilities -----------------------------------------------------------------------

  datatype Context = NoContext | Context(es: bool, major: int, unpackSubimage: bool)

  predicate SupportsUnpackRowLength(c: Context) {
    c.Context? && (!c.es || c.major >= 3 || c.unpackSubimage)
  }

  predicate SupportsPixelUnpackBuffer(c: Context) {
    c.Context? && (!c.es || c.major >= 3)
  }

  /**
   What GL itself has: on the desktop both; in OpenGL ES row lengths since version 3.0 or by the extension
   GL_EXT_unpack_subimage, and pixel unpack buffers since version 3.0.
   */
  predicate HasRowLength(c: Context) {
    match c
    case NoContext => false
    case Context(es, major, unpackSubimage) => es ==> unpackSubimage || 3 <= major
  }

  predicate HasPixelBuffers(c: Context) {
    match c
    case NoContext => false
    case Context(es, major, _) => es ==> 3 <= major
  }

  /** The uploader asks for what the context has and for all it has; pixel buffers never come without row lengths. */
  lemma CapabilitiesIff(c: Context)
    ensures SupportsUnpackRowLength(c) <==> HasRowLength(c)
    ensures SupportsPixelUnpackBuffer(c) <==> HasPixelBuffers(c)
    ensures HasPixelBuffers(c) ==> HasRowLength(c)
  {
  }

  // ---- pictures and the unpack rule -------------------------------------------------------------

  /** A source plane: `h` rows of `w` pixels, `stride` bytes apart. */
  datatype Plane = Plane(data: seq<Byte>, stride: nat, w: nat, h: nat)

  /** What a texture holds: its rows, `w` pixels each. */
  datatype Image = Image(w: nat, h: nat, rows: seq<seq<Byte>>)

  function Slice(data: seq<Byte>, from: int, n: nat): seq<Byte> {
    if 0 <= from && from + n <= |data| then data[from..from + n] else []
  }

  function Rows(data: seq<Byte>, stride: nat, rowBytes: nat, h: nat): seq<seq<Byte>> {
    seq(h, y requires 0 <= y < h => Slice(data, Row(0, stride, y), rowBytes))
  }

  /** The plane's own pixels. */
  function Picture(p: Plane, bpp: nat): Image {
    Image(p.w, p.h, Rows(p.data, p.stride, p.w * bpp, p.h))
  }

  /** Bytes from row to row under the unpack rule: row length counts pixels, and zero means the width. */
  function UnpackStride(rowLength: nat, w: nat, bpp: nat): nat {
    (if rowLength == 0 then w else rowLength) * bpp
  }

  /** What the texture receives from client memory or a pixel buffer, with unpack alignment 1. */
  function Unpack(data: seq<Byte>, rowLength: nat, w: nat, h: nat, bpp: nat): Image {
    Image(w, h, Rows(data, UnpackStride(rowLength, w, bpp), w * bpp, h))
  }

  /** The row length the uploader sets: left at zero when the context has none. */
  function RowLength(stride: nat, bpp: nat, rowLengths: bool): nat
    requires bpp > 0
  {
    if rowLengths then stride / bpp else 0
  }

  /** Rows do not overlap, and the buffer holds them all; the last one need not be padded. */
  predicate Rowed(p: Plane, bpp: nat) {
    p.w * bpp <= p.stride && RowsFit(0, p.stride, p.w * bpp, p.h, |p.data|)
  }

  /** The last row is padded like the others. */
  predicate Sound(p: Plane, bpp: nat) {
    p.w * bpp <= p.stride && p.stride * p.h <= |p.data|
  }

  lemma RowsAgree(a: seq<Byte>, sa: nat, b: seq<Byte>, sb: nat, rowBytes: nat, h: nat)
    requires RowsFit(0, sa, rowBytes, h, |a|) && RowsFit(0, sb, rowBytes, h, |b|)
    requires RowsEqual(a, 0, sa, b, 0, sb, rowBytes, h)
    ensures Rows(a, sa, rowBytes, h) == Rows(b, sb, rowBytes, h)
  {
    hide Row;
    forall y | 0 <= y < h ensures Rows(a, sa, rowBytes, h)[y] == Rows(b, sb, rowBytes, h)[y] {
      assert RowEqual(a, Row(0, sa, y), b, Row(0, sb, y), rowBytes);
    }
  }

  lemma SoundFits(p: Plane, bpp: nat)
    requires Sound(p, bpp)
    ensures Rowed(p, bpp)
  {
    if p.h > 0 {
      assert (p.h - 1) * p.stride + p.stride == p.h * p.stride == p.stride * p.h;
    }
  }

  lemma TightFits(rowBytes: nat, h: nat)
    ensures RowsFit(0, rowBytes, rowBytes, h, rowBytes * h)
  {
    if h > 0 {
      assert (h - 1) * rowBytes + rowBytes == h * rowBytes == rowBytes * h;
    }
  }

  /** Rows are read at their true distance exactly when a whole number of pixels fits between them. */
  lemma UnpackStrideIs(stride: nat, w: nat, bpp: nat)
    requires bpp > 0 && w * bpp <= stride
    ensures UnpackStride(stride / bpp, w, bpp) == stride <==> stride % bpp == 0
    ensures UnpackStride(stride / bpp, w, bpp) <= stride
  {
    var q := stride / bpp;
    assert stride == q * bpp + stride % bpp;
    assert (q + 1) * bpp == q * bpp + bpp;
    LessFromProduct(w, q + 1, bpp);
    assert UnpackStride(q, w, bpp) == q * bpp;
  }

  lemma LessFromProduct(a: nat, b: nat, n: nat)
    requires a * n < b * n
    ensures a < b
  {
    ProductMono(b, a, n);
  }

  /**
   An upload with row lengths shows the source's pixels, for every content of the plane, exactly when the
   stride is a multiple of the pixel size, or the plane has at most one row or no columns.
   */
  lemma DirectIsPictureIff(stride: nat, w: nat, h: nat, bpp: nat)
    requires bpp > 0 && w * bpp <= stride
    ensures (forall data: seq<Byte> :: |data| == stride * h ==>
               Unpack(data, stride / bpp, w, h, bpp) == Picture(Plane(data, stride, w, h), bpp))
            <==> stride % bpp == 0 || h <= 1 || w == 0
  {
    UnpackStrideIs(stride, w, bpp);
    if stride % bpp == 0 || h <= 1 || w == 0 {
      forall data: seq<Byte> | |data| == stride * h
        ensures Unpack(data, stride / bpp, w, h, bpp) == Picture(Plane(data, stride, w, h), bpp)
      {
        if stride % bpp != 0 {
          FlatAgree(data, UnpackStride(stride / bpp, w, bpp), stride, w * bpp, h);
        }
      }
    } else {
      var data := OneMark(stride, h);
      SecondRowDiffers(stride, w, h, bpp);
      assert Unpack(data, stride / bpp, w, h, bpp) != Picture(Plane(data, stride, w, h), bpp);
    }
  }

  lemma FlatAgree(data: seq<Byte>, s: nat, stride: nat, rowBytes: nat, h: nat)
    requires s <= stride && |data| == stride * h && (h <= 1 || rowBytes == 0)
    ensures Rows(data, s, rowBytes, h) == Rows(data, stride, rowBytes, h)
  {
    forall y | 0 <= y < h ensures Rows(data, s, rowBytes, h)[y] == Rows(data, stride, rowBytes, h)[y] {
      if h <= 1 {
        assert y == 0;
      }
    }
  }

  /** All zero but for the first byte of the second row. */
  function OneMark(stride: nat, h: nat): (d: seq<Byte>)
    ensures |d| == stride * h
  {
    seq(stride * h, i => if i == stride then 1 else 0)
  }

  lemma SecondRowDiffers(stride: nat, w: nat, h: nat, bpp: nat)
    requires bpp > 0 && 0 < w && w * bpp <= stride && h >= 2
    requires UnpackStride(stride / bpp, w, bpp) < stride
    ensures Unpack(OneMark(stride, h), stride / bpp, w, h, bpp).rows[1] !=
            Picture(Plane(OneMark(stride, h), stride, w, h), bpp).rows[1]
  {
    var data := OneMark(stride, h);
    var s := UnpackStride(stride / bpp, w, bpp);
    var n := w * bpp;
    assert n >= 1 by { assert w * bpp >= 1 * bpp; }
    assert |data| >= 2 * stride by { assert stride * h >= stride * 2; }
    assert Row(0, s, 1) == s && Row(0, stride, 1) == stride;
    assert Slice(data, s, n)[0] == data[s] == 0;
    assert Slice(data, stride, n)[0] == data[stride] == 1;
  }

  // ---- copies on the CPU -----------------------------------------------------------------------------

  method PrepareTightPlaneIfNeeded(p: Plane, rowLengths: bool) returns (data: seq<Byte>)
    requires Rowed(p, 1)
    ensures rowLengths || p.stride == p.w ==> data == p.data
    ensures !rowLengths ==> Unpack(data, 0, p.w, p.h, 1) == Picture(p, 1)
  {
    if p.stride == p.w || rowLengths {
      data := p.data;
    } else {
      data := TightRows(p, 1);
    }
  }

  /** The packing loop shared by the luma, planar and interleaved chroma paths. */
  method TightRows(p: Plane, bpp: nat) returns (data: seq<Byte>)
    requires Rowed(p, bpp)
    ensures |data| == p.w * bpp * p.h && Unpack(data, 0, p.w, p.h, bpp) == Picture(p, bpp)
  {
    var tight := new Byte[p.w * bpp * p.h];
    CopyTight(tight, p, bpp);
    data := tight[..];
  }

  method CopyTight(dst: array<Byte>, p: Plane, bpp: nat)
    requires Rowed(p, bpp) && dst.Length == p.w * bpp * p.h
    modifies dst
    ensures Unpack(dst[..], 0, p.w, p.h, bpp) == Picture(p, bpp)
  {
    TightFits(p.w * bpp, p.h);
    hide RowsFit, RowsEqual;
    CopyRows(dst, 0, p.w * bpp, p.data, 0, p.stride, p.w * bpp, p.h);
    RowsAgree(dst[..], p.w * bpp, p.data, p.stride, p.w * bpp, p.h);
  }

  function UploadBytes(p: Plane, bpp: nat, rowLengths: bool): nat {
    if rowLengths && p.stride != p.w * bpp then p.stride * p.h else p.w * bpp * p.h
  }

  /** What a texture shows after an upload of `p`: the rule's reading of it, or the packed picture. */
  function Shown(p: Plane, bpp: nat, rowLengths: bool): Image
    requires bpp > 0
  {
    if rowLengths then Unpack(p.data, p.stride / bpp, p.w, p.h, bpp) else Picture(p, bpp)
  }

  /** How far into the plane the staging copy reads: whole strides, the last one too, when it keeps the padding. */
  function StagedReads(p: Plane, bpp: nat, rowLengths: bool): int {
    if rowLengths && p.stride != p.w * bpp then p.stride * p.h
    else if p.h == 0 then 0 else Row(0, p.stride, p.h - 1) + p.w * bpp
  }

  /**
   The staging copy stays inside the plane exactly if it packs the rows, or there are none, or the last row is
   padded like the others.
   */
  lemma StagingInsideIff(p: Plane, bpp: nat, rowLengths: bool)
    requires Rowed(p, bpp)
    ensures StagedReads(p, bpp, rowLengths) <= |p.data|
            <==> !rowLengths || p.stride == p.w * bpp || p.h == 0 || Row(0, p.stride, p.h - 1) + p.stride <= |p.data|
  {
    if p.h > 0 {
      assert (p.h - 1) * p.stride + p.stride == p.h * p.stride == p.stride * p.h;
    }
  }

  /** The direct upload stays inside every plane whose rows fit, padded at the end or not. */
  lemma DirectInside(p: Plane, bpp: nat)
    requires bpp > 0 && Rowed(p, bpp)
    ensures RowsFit(0, UnpackStride(p.stride / bpp, p.w, bpp), p.w * bpp, p.h, |p.data|)
  {
    UnpackStrideIs(p.stride, p.w, bpp);
    if p.h > 0 {
      ProductMono(UnpackStride(p.stride / bpp, p.w, bpp), p.stride, p.h - 1);
    }
  }

  /**
   Staging refines the direct upload: under the rule the staged bytes read as the source's do, unless the copy
   reads past the plane's end.
   */
  method CopyPlaneForUpload(dst: array<Byte>, p: Plane, bpp: nat, rowLengths: bool) returns (total: nat, overran: bool)
    requires bpp > 0 && Rowed(p, bpp) && dst.Length == UploadBytes(p, bpp, rowLengths)
    modifies dst
    ensures total == dst.Length && (overran <==> StagedReads(p, bpp, rowLengths) > |p.data|)
    ensures !overran ==>
              Unpack(dst[..], RowLength(p.stride, bpp, rowLengths), p.w, p.h, bpp) == Shown(p, bpp, rowLengths)
  {
    var rowBytes := p.w * bpp;
    if rowLengths && p.stride != rowBytes {
      total := p.stride * p.h;
      overran := total > |p.data|;
      if overran {
        return;
      }
      CopyBytes(dst, 0, p.data, 0, total);
      assert dst[..] == dst[0..total] == p.data[0..total];
      UnpackStrideIs(p.stride, p.w, bpp);
      PrefixReads(p.data, total, UnpackStride(p.stride / bpp, p.w, bpp), p.stride, rowBytes, p.h);
      return;
    }
    CopyTight(dst, p, bpp);
    if rowLengths {
      WholePixels(p.w, bpp);
    }
    total := rowBytes * p.h;
    overran := false;
  }

  lemma WholePixels(w: nat, bpp: nat)
    requires bpp > 0
    ensures (w * bpp) / bpp == w
  {
    var n := w * bpp;
    var q := n / bpp;
    assert n == q * bpp + n % bpp;
    assert (q + 1) * bpp == q * bpp + bpp && (w + 1) * bpp == n + bpp;
    LessFromProduct(w, q + 1, bpp);
    LessFromProduct(q, w + 1, bpp);
  }

  /** The rule never reads past the rows, so cutting the buffer after them changes nothing. */
  lemma PrefixReads(data: seq<Byte>, total: nat, s: nat, stride: nat, rowBytes: nat, h: nat)
    requires total == stride * h <= |data| && s <= stride && rowBytes <= stride
    ensures Rows(data[0..total], s, rowBytes, h) == Rows(data, s, rowBytes, h)
  {
    hide Row;
    forall y | 0 <= y < h ensures Rows(data[0..total], s, rowBytes, h)[y] == Rows(data, s, rowBytes, h)[y] {
      RowEndsInside(s, stride, rowBytes, h, y);
      SliceOfPrefix(data, total, Row(0, s, y), rowBytes);
    }
  }

  lemma SliceOfPrefix(data: seq<Byte>, total: nat, at: nat, n: nat)
    requires at + n <= total <= |data|
    ensures Slice(data[0..total], at, n) == Slice(data, at, n)
  {
  }

  lemma RowEndsInside(s: nat, stride: nat, rowBytes: nat, h: nat, y: nat)
    requires y < h && s <= stride && rowBytes <= stride
    ensures 0 <= Row(0, s, y) && Row(0, s, y) + rowBytes <= stride * h
  {
    assert y * s == s * y && y * stride == stride * y && h * stride == stride * h;
    ProductMono(s, stride, y);
    ProductMono(y + 1, h, stride);
    assert (y + 1) * stride == y * stride + stride;
  }

  // ---- what a reader of the texture sees ----------------------------------------------------------------

  /** What was uploaded and what is staged, counting from the last reset. */
  datatype View<T> = View(shown: Option<T>, staged: Option<T>)

  function Next<T>(v: View<T>, t: T, stagedOk: bool): View<T> {
    if stagedOk then View(if v.staged.Some? then v.staged else v.shown, Some(t)) else View(Some(t), None)
  }

  function After<T>(ts: seq<T>, oks: seq<bool>): View<T>
    requires |ts| == |oks|
  {
    if ts == [] then View(None, None)
    else
      var n := |ts| - 1;
      Next(After(ts[..n], oks[..n]), ts[n], oks[n])
  }

  lemma AfterStep<T>(ts: seq<T>, oks: seq<bool>, t: T, ok: bool)
    requires |ts| == |oks|
    ensures After(ts + [t], oks + [ok]) == Next(After(ts, oks), t, ok)
  {
    assert (ts + [t])[..|ts|] == ts && (oks + [ok])[..|oks|] == oks;
  }

  /** The texture runs one plane behind, or none when the last staging failed, whatever failed before. */
  lemma {:induction false} LagByOne<T>(ts: seq<T>, oks: seq<bool>)
    requires |ts| == |oks|
    ensures var n := |ts|;
            After(ts, oks) ==
              if n == 0 then View(None, None)
              else if !oks[n - 1] then View(Some(ts[n - 1]), None)
              else View(if n == 1 then None else Some(ts[n - 2]), Some(ts[n - 1]))
  {
    if |ts| == 0 {
    } else {
      LagByOne(ts[..|ts| - 1], oks[..|ts| - 1]);
    }
  }

  datatype Size = Size(w: nat, h: nat)

  const NO_SIZE := Size(0, 0)

  function ImageSize(i: Image): Size { Size(i.w, i.h) }

  function PlaneSize(p: Plane): Size { Size(p.w, p.h) }

  /**
   Whether a texture that began its GL lifetime under the cached size `born` holds an image after uploads of
   the sizes `sent`: an upload of the cached size skips the allocation, and there is no storage to upload to.
   */
  ghost predicate Landed(born: Size, sent: seq<Size>) {
    exists i :: 0 <= i < |sent| && (born == NO_SIZE || sent[i] != born)
  }

  lemma LandedStep(born: Size, sent: seq<Size>, z: Size)
    ensures Landed(born, sent + [z]) <==> Landed(born, sent) || born == NO_SIZE || z != born
  {
    var all := sent + [z];
    if Landed(born, sent) {
      var i :| 0 <= i < |sent| && (born == NO_SIZE || sent[i] != born);
      assert all[i] == sent[i];
    }
    assert all[|sent|] == z;
  }

  lemma LandedStays(born: Size, sent: seq<Size>, later: seq<Size>)
    requires Landed(born, sent) && sent <= later
    ensures Landed(born, later)
  {
    var i :| 0 <= i < |sent| && (born == NO_SIZE || sent[i] != born);
    assert later[i] == sent[i];
  }

  function Sizes(planes: seq<Plane>): (r: seq<Size>)
    ensures |r| == |planes|
  {
    seq(|planes|, i requires 0 <= i < |planes| => PlaneSize(planes[i]))
  }

  /** What one turn sends to the texture: what was staged, and the plane itself if it could not be staged. */
  function SentBy(staged: Option<Image>, z: Size, stagedOk: bool): seq<Size> {
    (if staged.Some? then [ImageSize(staged.value)] else []) + (if stagedOk then [] else [z])
  }

  /** One plane's texture, its cached size and its two pixel buffers. `bpp` is fixed by the texture's format. */
  class PlaneUploader {
    const bpp: nat
    var ids: bool
    var buffers: seq<seq<Byte>>
    var nextStage: int
    var readyIndex: int
    var readyW: nat
    var readyH: nat
    var readyStride: nat
    var ready: bool
    var cache: Size
    // The GL side: the texture's storage, and its contents once something was uploaded to it.
    var storage: Size
    var texture: Option<Image>
    // The cached size when this GL lifetime began, and the sizes uploaded since.
    ghost var born: Size
    ghost var sent: seq<Size>

    /** The buffer waiting to be uploaded is never the one staged into next. */
    ghost predicate BuffersOk()
      reads this
    {
      bpp > 0 && |buffers| == 2 && nextStage in {0, 1} && (ready ==> ids && readyIndex == 1 - nextStage)
    }

    /**
     In every GL lifetime: the texture holds an image exactly if one could land, and then its size is the cached
     one.
     */
    ghost predicate TextureOk()
      reads this
    {
      if Landed(born, sent) then cache == storage && texture.Some?
      else cache == born && storage == NO_SIZE && texture == None
    }

    ghost predicate Valid()
      reads this
    {
      BuffersOk() && TextureOk()
    }

    ghost function Staged(rowLengths: bool): Option<Image>
      requires Valid()
      reads this
    {
      if ready
      then Some(Unpack(buffers[readyIndex], RowLength(readyStride, bpp, rowLengths), readyW, readyH, bpp))
      else None
    }

    constructor (bpp: nat, ids: bool)
      requires bpp > 0
      ensures Valid() && this.bpp == bpp && this.ids == ids && !ready && born == cache == NO_SIZE && sent == []
    {
      this.bpp, this.ids, buffers := bpp, ids, [[], []];
      nextStage, readyIndex, ready := 0, -1, false;
      readyW, readyH, readyStride := 0, 0, 0;
      cache, storage, texture := NO_SIZE, NO_SIZE, None;
      born, sent := NO_SIZE, [];
    }

    /** A new GL lifetime: an empty texture, and pixel buffers if the context has them. The cached size stays. */
    method CreateGl(pixelBuffers: bool)
      requires BuffersOk()
      modifies this`ids, this`storage, this`texture, this`born, this`sent
      ensures Valid() && ids == (old(ids) || pixelBuffers) && born == cache && sent == []
    {
      TexImage(NO_SIZE);
      ids := ids || pixelBuffers;
      born, sent := cache, [];
    }

    /** The end of a GL lifetime. The cached size stays, although the texture it describes is gone. */
    method DestroyGl(pixelBuffers: bool)
      requires BuffersOk() && (ids ==> pixelBuffers)
      modifies this
      ensures Valid() && !ids && !ready && cache == old(cache) == born && sent == []
    {
      TexImage(NO_SIZE);
      born, sent := cache, [];
      if pixelBuffers {
        ids, buffers := false, [[], []];
        ResetPlaneUploadPbo();
      }
    }

    method TexImage(z: Size)
      modifies this`storage, this`texture
      ensures storage == z && texture == None
    {
      storage, texture := z, None;
    }

    /** A sub-image as large as the storage replaces the contents; any other is an error and does nothing. */
    method TexSubImage(image: Image)
      modifies this`texture
      ensures texture == if ImageSize(image) == storage then Some(image) else old(texture)
    {
      if ImageSize(image) == storage {
        texture := Some(image);
      }
    }

    /** Allocates storage if the cached size differs, then uploads: in a later lifetime the cache may be wrong. */
    method UploadImage(image: Image)
      requires Valid()
      modifies this`cache, this`storage, this`texture, this`sent
      ensures Valid() && sent == old(sent) + [ImageSize(image)]
      ensures texture == if Landed(born, sent) then Some(image) else None
    {
      LandedStep(born, sent, ImageSize(image));
      var sameSize := cache == ImageSize(image);
      if !sameSize {
        cache := ImageSize(image);
        TexImage(cache);
      }
      TexSubImage(image);
      sent := sent + [ImageSize(image)];
    }

    method UploadPlaneTight(data: seq<Byte>, w: nat, h: nat, stride: nat, rowLengths: bool)
      requires Valid()
      modifies this`cache, this`storage, this`texture, this`sent
      ensures Valid() && sent == old(sent) + [Size(w, h)]
      ensures var image := Unpack(data, RowLength(stride, bpp, rowLengths), w, h, bpp);
              texture == if Landed(born, sent) then Some(image) else None
    {
      UploadImage(Unpack(data, RowLength(stride, bpp, rowLengths), w, h, bpp));
    }

    method ResetPlaneUploadPbo()
      modifies this`nextStage, this`readyIndex, this`readyW, this`readyH, this`readyStride, this`ready
      ensures !ready && nextStage == 0 && readyIndex == -1
    {
      nextStage, readyIndex, ready := 0, -1, false;
      readyW, readyH, readyStride := 0, 0, 0;
    }

    method UploadPlaneFromReadyPbo(rowLengths: bool) returns (uploaded: bool)
      requires Valid()
      modifies this`cache, this`storage, this`texture, this`sent
      ensures Valid() && uploaded == ready && Staged(rowLengths) == old(Staged(rowLengths))
      ensures !ready ==> texture == old(texture) && sent == old(sent)
      ensures ready ==>
                && sent == old(sent) + [ImageSize(Staged(rowLengths).value)]
                && texture == if Landed(born, sent) then Staged(rowLengths) else None
    {
      if !ready || readyIndex < 0 {
        return false;
      }
      UploadImage(Unpack(buffers[readyIndex], RowLength(readyStride, bpp, rowLengths), readyW, readyH, bpp));
      return true;
    }

    method StagePlaneIntoPbo(p: Plane, rowLengths: bool, mapOk: bool, unmapOk: bool) returns (ok: bool)
      requires Valid() && Sound(p, bpp)
      modifies this`buffers, this`nextStage, this`readyIndex, this`readyW, this`readyH, this`readyStride, this`ready
      ensures ok == (ids && mapOk && unmapOk)
      ensures ok ==> Valid() && Staged(rowLengths) == Some(Shown(p, bpp, rowLengths))
      ensures |buffers| == 2 && buffers[1 - old(nextStage)] == old(buffers[1 - nextStage])
    {
      if !ids {
        return false;
      }
      hide Landed;
      var index := nextStage;
      nextStage := (index + 1) % 2;
      var mapped := new Byte[UploadBytes(p, bpp, rowLengths)];
      buffers := buffers[index := mapped[..]];
      if !mapOk {
        return false;
      }
      SoundFits(p, bpp);
      var _, _ := CopyPlaneForUpload(mapped, p, bpp, rowLengths);
      buffers := buffers[index := mapped[..]];
      if !unmapOk {
        return false;
      }
      readyIndex, readyW, readyH, readyStride, ready := index, p.w, p.h, p.stride, true;
      return true;
    }

    /** One turn: upload what the last turn staged, stage this plane, and fall back to a direct upload if that fails. */
    method UploadPlaneViaPboAsync(c: Context, p: Plane, mapOk: bool, unmapOk: bool) returns (uploaded: bool)
      requires Valid() && Sound(p, bpp) && SupportsPixelUnpackBuffer(c)
      modifies this
      ensures Valid() && ids == old(ids) && born == old(born)
      ensures var rl, ok := SupportsUnpackRowLength(c), ids && mapOk && unmapOk;
              var next := Next(View(old(texture), old(Staged(rl))), Shown(p, bpp, rl), ok);
              && Staged(rl) == next.staged
              && texture == (if Landed(born, sent) then next.shown else None)
              && sent == old(sent) + SentBy(old(Staged(rl)), PlaneSize(p), ok)
      ensures uploaded == (old(ready) || !(ids && mapOk && unmapOk))
      ensures old(ready) ==> buffers[old(readyIndex)] == old(buffers[readyIndex])
    {
      var rowLengths := SupportsUnpackRowLength(c);
      hide Unpack, Shown, Landed;
      if !ids {
        UploadDirectly(p, rowLengths);
        assert sent == old(sent) + SentBy(None, PlaneSize(p), false);
        return true;
      }
      uploaded := UploadPlaneFromReadyPbo(rowLengths);
      ghost var drained := sent;
      var ok := StagePlaneIntoPbo(p, rowLengths, mapOk, unmapOk);
      if !ok {
        ResetPlaneUploadPbo();
        UploadDirectly(p, rowLengths);
        assert sent == old(sent) + SentBy(old(Staged(rowLengths)), PlaneSize(p), false);
        return true;
      }
      assert sent == old(sent) + SentBy(old(Staged(rowLengths)), PlaneSize(p), true);
    }

    /** The fallback relies on row lengths: pixel buffers exist only where row lengths do. */
    method UploadDirectly(p: Plane, rowLengths: bool)
      requires Valid() && rowLengths
      modifies this`cache, this`storage, this`texture, this`sent
      ensures Valid() && sent == old(sent) + [PlaneSize(p)]
      ensures texture == if Landed(born, sent) then Some(Shown(p, bpp, rowLengths)) else None
    {
      UploadPlaneTight(p.data, p.w, p.h, p.stride, rowLengths);
    }

    /** The path without pixel buffers: rows are packed first where the context has no row lengths. */
    method UploadPlanePacked(p: Plane, rowLengths: bool)
      requires Valid() && Rowed(p, bpp)
      modifies this`cache, this`storage, this`texture, this`sent
      ensures Valid() && sent == old(sent) + [PlaneSize(p)]
      ensures texture == if Landed(born, sent) then Some(Shown(p, bpp, rowLengths)) else None
    {
      var data := p.data;
      if !rowLengths {
        if bpp == 1 {
          data := PrepareTightPlaneIfNeeded(p, rowLengths);
        } else if p.stride != p.w * bpp {
          data := TightRows(p, bpp);
        }
      }
      UploadPlaneTight(data, p.w, p.h, p.stride, rowLengths);
    }

    /**
     Any run of turns after a reset, in any GL lifetime. Every plane but one still staged has been sent, in
     order; the texture holds the last one sent, provided one could land.
     */
    method UploadAll(c: Context, planes: seq<Plane>, mapOks: seq<bool>, unmapOks: seq<bool>)
      requires Valid() && !ready && ids && SupportsPixelUnpackBuffer(c)
      requires |planes| == |mapOks| == |unmapOks| && forall k :: 0 <= k < |planes| ==> Sound(planes[k], bpp)
      modifies this
      ensures Valid() && born == old(born)
      ensures var n := |planes|;
              var m := if n > 0 && mapOks[n - 1] && unmapOks[n - 1] then n - 1 else n;
              && sent == old(sent) + Sizes(planes[..m])
              && (m > 0 ==>
                    texture ==
                    if Landed(born, sent) then Some(Shown(planes[m - 1], bpp, SupportsUnpackRowLength(c))) else None)
    {
      var rl := SupportsUnpackRowLength(c);
      hide Unpack, Shown, After, Sound, SupportsUnpackRowLength, SupportsPixelUnpackBuffer, Landed, SentBy;
      ghost var images: seq<Image>, oks: seq<bool> := [], [];
      LagByOne(images, oks);
      ghost var m := 0;
      assert sent == sent + Sizes(planes[..0]);
      for k := 0 to |planes|
        invariant Valid() && ids && born == old(born) && |images| == |oks| == k
        invariant m == (if k > 0 && mapOks[k - 1] && unmapOks[k - 1] then k - 1 else k)
        invariant forall i :: 0 <= i < k ==> images[i] == Shown(planes[i], bpp, rl)
        invariant forall i :: 0 <= i < k ==> oks[i] == (mapOks[i] && unmapOks[i])
        invariant After(images, oks).staged == Staged(rl) && sent == old(sent) + Sizes(planes[..m])
        invariant After(images, oks).shown.Some? ==>
                    texture == if Landed(born, sent) then After(images, oks).shown else None
      {
        LagByOne(images, oks);
        ghost var ok, staged := mapOks[k] && unmapOks[k], Staged(rl);
        ShownSize(planes, bpp, rl);
        SentStep(planes, k, m, staged, ok);
        Assoc(old(sent), Sizes(planes[..m]), SentBy(staged, PlaneSize(planes[k]), ok));
        var _ := UploadPlaneViaPboAsync(c, planes[k], mapOks[k], unmapOks[k]);
        AfterStep(images, oks, Shown(planes[k], bpp, rl), ok);
        images, oks := images + [Shown(planes[k], bpp, rl)], oks + [ok];
        m := if ok then k else k + 1;
      }
      LagByOne(images, oks);
    }
  }

  lemma SentStep(planes: seq<Plane>, k: nat, m: nat, staged: Option<Image>, ok: bool)
    requires m <= k < |planes|
    requires if staged.Some? then m + 1 == k && ImageSize(staged.value) == PlaneSize(planes[m]) else m == k
    ensures Sizes(planes[..m]) + SentBy(staged, PlaneSize(planes[k]), ok) == Sizes(planes[..if ok then k else k + 1])
  {
  }

  lemma ShownSize(planes: seq<Plane>, bpp: nat, rowLengths: bool)
    requires bpp > 0
    ensures forall i :: 0 <= i < |planes| ==> ImageSize(Shown(planes[i], bpp, rowLengths)) == PlaneSize(planes[i])
  {
  }
}
