/** Copying a decoder output buffer into an NV12 frame, and the format fields that steer the copy. */
module Nv12Copy {

  import opened Base
  import opened RowCopy

  // ---- the output format ----------------------------------------------------------------

  /** What a MediaFormat reports; an absent key leaves the caller's value alone. */
  datatype Format = Format(width: Option<int>, height: Option<int>, color: Option<int>, androidColor: Option<int>,
                           stride: Option<int>, sliceHeight: Option<int>)

  function Or(o: Option<int>, otherwise: int): int {
    match o case None => otherwise case Some(v) => v
  }

  class OutputFormat {
    var width: int
    var height: int
    var stride: int
    var sliceHeight: int
    var color: int

    /** Rows are at least as long as the picture is wide, and there are at least as many as it is high. */
    ghost predicate Sane()
      reads this
    {
      stride >= width && sliceHeight >= height
    }

    constructor ()
      ensures Sane() && width == 0 && height == 0 && color == 0
    {
      width, height, stride, sliceHeight, color := 0, 0, 0, 0, 0;
    }

    /** DestroyCodec's part of the reset. */
    method Reset()
      modifies this
      ensures Sane() && width == 0 && height == 0 && stride == 0 && sliceHeight == 0 && color == 0
    {
      width, height, stride, sliceHeight := 0, 0, 0, 0;
      color := 0;
    }

    method Update(fmt: Format)
      modifies this
      ensures Sane()
      ensures width == Or(fmt.width, old(width)) && height == Or(fmt.height, old(height))
      ensures color == Or(fmt.color, Or(fmt.androidColor, old(color)))
      ensures stride == if fmt.stride.Some? && fmt.stride.value >= width then fmt.stride.value else width
      ensures sliceHeight ==
              if fmt.sliceHeight.Some? && fmt.sliceHeight.value >= height then fmt.sliceHeight.value else height
    {
      if fmt.width.Some? { width := fmt.width.value; }
      if fmt.height.Some? { height := fmt.height.value; }
      if fmt.color.Some? {
        color := fmt.color.value;
      } else if fmt.androidColor.Some? {
        color := fmt.androidColor.value;
      }
      if fmt.stride.Some? { stride := fmt.stride.value; }
      if fmt.stride.None? || stride < width { stride := width; }
      if fmt.sliceHeight.Some? { sliceHeight := fmt.sliceHeight.value; }
      if fmt.sliceHeight.None? || sliceHeight < height { sliceHeight := height; }
    }
  }

  // ---- the destination frame ----------------------------------------------------------------

  function ChromaRows(height: nat): nat { (height + 1) / 2 }

  /** Interleaved U and V samples of one chroma row. */
  function ChromaRowBytes(width: nat): nat { 2 * ((width + 1) / 2) }

  class Nv12Buffer {
    const width: nat
    const height: nat
    const strideY: nat
    const strideUV: nat
    const dataY: array<Byte>
    const dataUV: array<Byte>

    ghost predicate Valid()
      reads this
    {
      && width <= strideY && ChromaRowBytes(width) <= strideUV
      && dataY.Length == strideY * height && dataUV.Length == strideUV * ChromaRows(height)
      && dataY != dataUV
    }

    constructor (width: nat, height: nat, strideY: nat, strideUV: nat)
      requires width <= strideY && ChromaRowBytes(width) <= strideUV
      ensures Valid() && fresh(dataY) && fresh(dataUV)
      ensures this.width == width && this.height == height && this.strideY == strideY && this.strideUV == strideUV
    {
      this.width, this.height, this.strideY, this.strideUV := width, height, strideY, strideUV;
      dataY := new Byte[strideY * height];
      dataUV := new Byte[strideUV * ChromaRows(height)];
    }

    lemma PlanesFit()
      requires Valid()
      ensures RowsFit(0, strideY, width, height, dataY.Length)
      ensures RowsFit(0, strideUV, width, ChromaRows(height), dataUV.Length)
    {
      if height > 0 {
        assert (height - 1) * strideY + strideY == height * strideY == strideY * height;
        var r := ChromaRows(height);
        assert (r - 1) * strideUV + strideUV == r * strideUV == strideUV * r;
      }
    }
  }

  // ---- the two copies ---------------------------------------------------------------------------

  predicate StridedAccepts(cap: nat, offset: int, width: int, height: int, stride: int, sliceHeight: int) {
    && width > 0 && height > 0 && stride >= width
    && offset + stride * sliceHeight + stride * ((height + 1) / 2) <= cap
  }

  predicate TightAccepts(cap: nat, offset: int, width: int, height: int) {
    && width > 0 && height > 0 && offset >= 0
    && offset + (width * height + width * ((height + 1) / 2)) <= cap
  }

  lemma LastRowInside(stride: nat, width: nat, rows: nat)
    requires width <= stride && rows > 0
    ensures Row(0, stride, rows - 1) + width <= stride * rows
  {
    assert (rows - 1) * stride + stride == rows * stride == stride * rows;
  }

  /** An accepted strided copy reads only inside the buffer, when the slice holds the picture's rows. */
  lemma StridedReadsInside(cap: nat, offset: int, width: int, height: int, stride: int, sliceHeight: int)
    requires StridedAccepts(cap, offset, width, height, stride, sliceHeight) && sliceHeight >= height && offset >= 0
    ensures RowsFit(offset, stride, width, height, cap)
    ensures RowsFit(offset + stride * sliceHeight, stride, width, ChromaRows(height), cap)
  {
    LastRowInside(stride, width, height);
    LastRowInside(stride, width, ChromaRows(height));
    assert stride * height <= stride * sliceHeight;
    assert 0 <= stride * ChromaRows(height);
  }

  /** The offset test the strided copy leaves out is the exact condition for it to stay inside. */
  lemma StridedInsideIffOffset(cap: nat, offset: int, width: int, height: int, stride: int, sliceHeight: int)
    requires StridedAccepts(cap, offset, width, height, stride, sliceHeight) && sliceHeight >= height
    ensures (RowsFit(offset, stride, width, height, cap)
             && RowsFit(offset + stride * sliceHeight, stride, width, ChromaRows(height), cap)) <==> offset >= 0
  {
    if offset >= 0 {
      StridedReadsInside(cap, offset, width, height, stride, sliceHeight);
    }
  }

  /** What both copies promise about the frame: every luma and chroma row is in place. */
  ghost predicate Holds(dst: Nv12Buffer, src: seq<Byte>, luma: int, chroma: int, stride: nat)
    requires dst.Valid()
    reads dst, dst.dataY, dst.dataUV
  {
    && RowsFit(0, dst.strideY, dst.width, dst.height, dst.dataY.Length)
    && RowsFit(0, dst.strideUV, dst.width, ChromaRows(dst.height), dst.dataUV.Length)
    && RowsFit(luma, stride, dst.width, dst.height, |src|)
    && RowsFit(chroma, stride, dst.width, ChromaRows(dst.height), |src|)
    && RowsEqual(dst.dataY[..], 0, dst.strideY, src, luma, stride, dst.width, dst.height)
    && RowsEqual(dst.dataUV[..], 0, dst.strideUV, src, chroma, stride, dst.width, ChromaRows(dst.height))
  }

  /** `Overrun`: the guard let a copy through that reads outside the buffer. */
  datatype CopyOutcome = Refused | Copied | Overrun

  predicate StridedInside(cap: nat, offset: int, width: nat, height: nat, stride: nat, sliceHeight: int) {
    && RowsFit(offset, stride, width, height, cap)
    && RowsFit(offset + stride * sliceHeight, stride, width, ChromaRows(height), cap)
  }

  method FillNV12BufferFromNv12(src: seq<Byte>, offset: int, width: int, height: int, stride: int, sliceHeight: int,
                                dst: Nv12Buffer) returns (r: CopyOutcome)
    requires dst.Valid() && (width > 0 && height > 0 ==> dst.width == width && dst.height == height)
    modifies dst.dataY, dst.dataUV
    ensures r.Refused? <==> !StridedAccepts(|src|, offset, width, height, stride, sliceHeight)
    ensures !r.Refused? ==> (r.Copied? <==> StridedInside(|src|, offset, width, height, stride, sliceHeight))
    ensures offset >= 0 && sliceHeight >= height ==> !r.Overrun?
    ensures r.Copied? ==> Holds(dst, src, offset, offset + stride * sliceHeight, stride)
    ensures r.Copied? ==> RestKept(dst.dataY[..], old(dst.dataY[..]), 0, dst.strideY, dst.width, dst.height)
    ensures r.Copied? ==>
              RestKept(dst.dataUV[..], old(dst.dataUV[..]), 0, dst.strideUV, dst.width, ChromaRows(dst.height))
    ensures r.Refused? ==> dst.dataY[..] == old(dst.dataY[..]) && dst.dataUV[..] == old(dst.dataUV[..])
  {
    hide RowsEqual, RowsFit, RestKept;
    if width <= 0 || height <= 0 || stride < width {
      return Refused;
    }
    var yPlane := stride * sliceHeight;
    var uvRows := (height + 1) / 2;
    if offset + yPlane + stride * uvRows > |src| {
      return Refused;
    }
    if offset >= 0 && sliceHeight >= height {
      StridedReadsInside(|src|, offset, width, height, stride, sliceHeight);
    }
    if !StridedInside(|src|, offset, width, height, stride, sliceHeight) {
      return Overrun;
    }
    InsideStarts(offset, stride, width, height, |src|);
    InsideStarts(offset + yPlane, stride, width, uvRows, |src|);
    dst.PlanesFit();
    CopyRows(dst.dataY, 0, dst.strideY, src, offset, stride, width, height);
    CopyRows(dst.dataUV, 0, dst.strideUV, src, offset + yPlane, stride, width, uvRows);
    r := Copied;
  }

  lemma InsideStarts(base: int, stride: nat, rowBytes: nat, rows: nat, size: nat)
    requires RowsFit(base, stride, rowBytes, rows, size) && rows > 0
    ensures base >= 0
  {
  }

  method FillNV12BufferFromNv12Tight(src: seq<Byte>, offset: int, width: int, height: int, dst: Nv12Buffer)
    returns (ok: bool)
    requires dst.Valid() && (width > 0 && height > 0 ==> dst.width == width && dst.height == height)
    modifies dst.dataY, dst.dataUV
    ensures ok <==> TightAccepts(|src|, offset, width, height)
    ensures ok ==> Holds(dst, src, offset, offset + width * height, width)
    ensures ok ==> RestKept(dst.dataY[..], old(dst.dataY[..]), 0, dst.strideY, dst.width, dst.height)
    ensures ok ==> RestKept(dst.dataUV[..], old(dst.dataUV[..]), 0, dst.strideUV, dst.width, ChromaRows(dst.height))
    ensures !ok ==> dst.dataY[..] == old(dst.dataY[..]) && dst.dataUV[..] == old(dst.dataUV[..])
  {
    if width <= 0 || height <= 0 {
      return false;
    }
    var uvRows := (height + 1) / 2;
    var need := width * height + width * uvRows;
    if offset < 0 || offset + need > |src| {
      return false;
    }
    StridedReadsInside(|src|, offset, width, height, width, height);
    dst.PlanesFit();
    hide RowsEqual, RowsFit, RestKept;
    CopyRows(dst.dataY, 0, dst.strideY, src, offset, width, width, height);
    CopyRows(dst.dataUV, 0, dst.strideUV, src, offset + width * height, width, width, uvRows);
    ok := true;
  }

  /**
   With no padding the strided copy is the tight one: it accepts the same buffers, and a frame it filled
   shows the picture a tightly filled frame shows.
   */
  lemma StridedIsTight(strided: Nv12Buffer, tight: Nv12Buffer, src: seq<Byte>, offset: nat)
    requires strided.Valid() && tight.Valid() && strided.width == tight.width && strided.height == tight.height
    ensures var w, h := tight.width, tight.height;
            && (StridedAccepts(|src|, offset, w, h, w, h) <==> TightAccepts(|src|, offset, w, h))
            && (Holds(strided, src, offset, offset + w * h, w) && Holds(tight, src, offset, offset + w * h, w) ==>
                  SamePicture(strided, tight))
  {
    var w, h := tight.width, tight.height;
    if Holds(strided, src, offset, offset + w * h, w) && Holds(tight, src, offset, offset + w * h, w) {
      strided.PlanesFit();
      tight.PlanesFit();
      RowsEqualJoin(strided.dataY[..], strided.strideY, tight.dataY[..], tight.strideY, src, offset, w, w, h);
      RowsEqualJoin(strided.dataUV[..], strided.strideUV, tight.dataUV[..], tight.strideUV, src, offset + w * h, w, w,
                    ChromaRows(h));
    }
  }

  ghost predicate SamePicture(a: Nv12Buffer, b: Nv12Buffer)
    requires a.Valid() && b.Valid() && a.width == b.width && a.height == b.height
    reads a, b, a.dataY, a.dataUV, b.dataY, b.dataUV
  {
    a.PlanesFit();
    b.PlanesFit();
    && RowsEqual(a.dataY[..], 0, a.strideY, b.dataY[..], 0, b.strideY, a.width, a.height)
    && RowsEqual(a.dataUV[..], 0, a.strideUV, b.dataUV[..], 0, b.strideUV, a.width, ChromaRows(a.height))
  }

  lemma RowsEqualJoin(a: seq<Byte>, sa: nat, b: seq<Byte>, sb: nat, src: seq<Byte>, base: int, stride: nat,
                      rowBytes: nat, rows: nat)
    requires RowsFit(0, sa, rowBytes, rows, |a|) && RowsFit(0, sb, rowBytes, rows, |b|)
    requires RowsFit(base, stride, rowBytes, rows, |src|)
    requires RowsEqual(a, 0, sa, src, base, stride, rowBytes, rows)
    requires RowsEqual(b, 0, sb, src, base, stride, rowBytes, rows)
    ensures RowsEqual(a, 0, sa, b, 0, sb, rowBytes, rows)
  {
    hide Row;
    forall y: nat | y < rows ensures RowEqual(a, Row(0, sa, y), b, Row(0, sb, y), rowBytes) {
      assert RowEqual(a, Row(0, sa, y), src, Row(base, stride, y), rowBytes);
      assert RowEqual(b, Row(0, sb, y), src, Row(base, stride, y), rowBytes);
    }
  }

  /**
   A copied chroma row is `width` bytes long. That is the whole row exactly when the width is even;
   for an odd width the row's last sample keeps whatever the frame held before.
   */
  lemma ChromaCompleteIffEven(width: nat, height: nat, strideUV: nat, y: nat)
    requires width > 0 && y < ChromaRows(height) && ChromaRowBytes(width) <= strideUV
    ensures (forall i :: Row(0, strideUV, y) <= i < Row(0, strideUV, y) + ChromaRowBytes(width) ==>
               InRows(0, strideUV, width, ChromaRows(height), i)) <==> width % 2 == 0
  {
    var last := Row(0, strideUV, y) + ChromaRowBytes(width) - 1;
    if width % 2 == 1 {
      OutsideRows(strideUV, width, ChromaRows(height), y, last);
    }
  }

  /** A byte between the end of row `y` and the start of the next row is in no row. */
  lemma OutsideRows(stride: nat, rowBytes: nat, rows: nat, y: nat, i: int)
    requires y < rows && rowBytes <= stride
    requires Row(0, stride, y) + rowBytes <= i < Row(0, stride, y) + stride
    ensures !InRows(0, stride, rowBytes, rows, i)
  {
    hide Row;
    forall z: nat | z < rows ensures !(Row(0, stride, z) <= i < Row(0, stride, z) + rowBytes) {
      if z < y {
        RowOrder(0, stride, z, y);
      } else if y < z {
        RowOrder(0, stride, y, z);
      }
    }
  }
}
