/** Row-by-row plane copies between strided buffers, as every frame path in the pipeline does them. */
module RowCopy {

  import opened Base

  /** Where row `y` of a plane starts. */
  function Row(base: int, stride: int, y: nat): int {
    base + y * stride
  }

  lemma RowOrder(base: int, stride: nat, y: nat, z: nat)
    requires y < z
    ensures Row(base, stride, y) + stride <= Row(base, stride, z)
  {
    assert y * stride + stride == (y + 1) * stride <= z * stride;
  }

  /** The last row ends inside a buffer of `size` bytes, so every row does. */
  predicate RowsFit(base: int, stride: nat, rowBytes: nat, rows: nat, size: nat) {
    rows > 0 ==> 0 <= base && Row(base, stride, rows - 1) + rowBytes <= size
  }

  lemma RowFits(base: int, stride: nat, rowBytes: nat, rows: nat, size: nat, y: nat)
    requires RowsFit(base, stride, rowBytes, rows, size) && y < rows
    ensures 0 <= Row(base, stride, y) && Row(base, stride, y) + rowBytes <= size
  {
    if y < rows - 1 {
      RowOrder(base, stride, y, rows - 1);
    }
    assert 0 <= y * stride;
  }

  ghost predicate InRows(base: int, stride: nat, rowBytes: nat, rows: nat, i: int) {
    exists y :: 0 <= y < rows && Row(base, stride, y) <= i < Row(base, stride, y) + rowBytes
  }

  /** Rows of `dst` hold the rows of `src`. */
  ghost predicate RowsEqual(dst: seq<Byte>, db: int, ds: nat, src: seq<Byte>, sb: int, ss: nat, rowBytes: nat,
                            rows: nat)
    requires RowsFit(db, ds, rowBytes, rows, |dst|) && RowsFit(sb, ss, rowBytes, rows, |src|)
  {
    forall y: nat :: y < rows ==> RowEqual(dst, Row(db, ds, y), src, Row(sb, ss, y), rowBytes)
  }

  ghost predicate RowEqual(dst: seq<Byte>, at: int, src: seq<Byte>, from: int, n: nat) {
    && 0 <= at && at + n <= |dst| && 0 <= from && from + n <= |src|
    && dst[at..at + n] == src[from..from + n]
  }

  /** Bytes outside the rows are what they were. */
  ghost predicate RestKept(dst: seq<Byte>, was: seq<Byte>, base: int, stride: nat, rowBytes: nat, rows: nat) {
    && |dst| == |was|
    && (forall i :: 0 <= i < |dst| && !InRows(base, stride, rowBytes, rows, i) ==> dst[i] == was[i])
  }

  method CopyBytes(dst: array<Byte>, at: nat, src: seq<Byte>, from: nat, n: nat)
    requires at + n <= dst.Length && from + n <= |src|
    modifies dst
    ensures dst[at..at + n] == src[from..from + n]
    ensures forall i :: 0 <= i < dst.Length && !(at <= i < at + n) ==> dst[i] == old(dst[i])
  {
    for k := 0 to n
      invariant forall i :: at <= i < at + k ==> dst[i] == src[from + i - at]
      invariant forall i :: 0 <= i < dst.Length && !(at <= i < at + k) ==> dst[i] == old(dst[i])
    {
      dst[at + k] := src[from + k];
    }
  }

  lemma SliceKept(was: seq<Byte>, now: seq<Byte>, at: nat, n: nat)
    requires |was| == |now| && at + n <= |was|
    requires forall i :: at <= i < at + n ==> now[i] == was[i]
    ensures now[at..at + n] == was[at..at + n]
  {
  }

  /** Copies `rows` rows of `rowBytes` bytes; rows of the destination must not overlap. */
  method CopyRows(dst: array<Byte>, db: nat, ds: nat, src: seq<Byte>, sb: nat, ss: nat, rowBytes: nat, rows: nat)
    requires rowBytes <= ds || rows <= 1
    requires RowsFit(db, ds, rowBytes, rows, dst.Length) && RowsFit(sb, ss, rowBytes, rows, |src|)
    modifies dst
    ensures RowsEqual(dst[..], db, ds, src, sb, ss, rowBytes, rows)
    ensures RestKept(dst[..], old(dst[..]), db, ds, rowBytes, rows)
  {
    hide Row;
    for y := 0 to rows
      invariant forall z: nat :: z < y ==> RowEqual(dst[..], Row(db, ds, z), src, Row(sb, ss, z), rowBytes)
      invariant RestKept(dst[..], old(dst[..]), db, ds, rowBytes, rows)
    {
      RowFits(db, ds, rowBytes, rows, dst.Length, y);
      RowFits(sb, ss, rowBytes, rows, |src|, y);
      ghost var before := dst[..];
      CopyBytes(dst, Row(db, ds, y), src, Row(sb, ss, y), rowBytes);
      forall z: nat | z < y + 1 ensures RowEqual(dst[..], Row(db, ds, z), src, Row(sb, ss, z), rowBytes) {
        if z < y {
          RowOrder(db, ds, z, y);
          assert RowEqual(before, Row(db, ds, z), src, Row(sb, ss, z), rowBytes);
          SliceKept(before, dst[..], Row(db, ds, z), rowBytes);
        }
      }
    }
  }
}
