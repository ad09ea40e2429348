/** The address arithmetic of readback (texture.cpp, the three Readback methods): a
    mapped staging subresource keeps its rows RowPitch bytes apart and, in 3D, its
    slices DepthPitch bytes apart, and either pitch may exceed the tightly packed size
    the caller's buffer uses. The copy therefore goes row by row (and slice by slice),
    never as one block. */
module Pitch {
  import opened Gpu
  import Formats

  /** The tightly packed size of a row of `width` pixels: `width * BitsPerPixel / 8`,
      C integer division on non-negative operands. */
  function RowSize(width: nat, format: Formats.Format): nat
  {
    var bits := Formats.BitsPerPixel(format);
    MulMono(0, width, bits);
    width * bits / 8
  }

  /** The number of rows a mapped subresource `height` texels tall is stored in: one per
      texel row, or one per row of 4 x 4 blocks for a block-compressed format. */
  function RowCount(height: nat, format: Formats.Format): nat
  {
    if Formats.IsBlockCompressed(format) then (height + 3) / 4 else height
  }

  /** The tightly packed size of one of those rows for a subresource `width` texels wide:
      RowSize, or for a block-compressed format ceil(width / 4) blocks of
      16 * BitsPerPixel / 8 bytes. */
  function RowBytes(width: nat, format: Formats.Format): nat
  {
    if Formats.IsBlockCompressed(format) then
      var blocks, blockBytes := (width + 3) / 4, 2 * Formats.BitsPerPixel(format);
      MulMono(0, blocks, blockBytes);
      blocks * blockBytes
    else RowSize(width, format)
  }

  /** The tightly packed size of a subresource `width` x `height` texels, `depth` slices
      deep: what a readback writes into the caller's buffer. */
  function PackedSize(width: nat, height: nat, depth: nat, format: Formats.Format): nat
  {
    var rows, rowBytes := RowCount(height, format), RowBytes(width, format);
    MulMono(0, rows, rowBytes);
    MulMono(0, depth, rows * rowBytes);
    depth * (rows * rowBytes)
  }

  /** For every format that is not block-compressed the stored rows are the texel rows of
      RowSize bytes; for a block-compressed one the block rows cover every texel row, with
      no block row left over. */
  lemma StoredRows(width: nat, height: nat, format: Formats.Format)
    ensures !Formats.IsBlockCompressed(format) ==>
      RowCount(height, format) == height && RowBytes(width, format) == RowSize(width, format)
    ensures Formats.IsBlockCompressed(format) ==>
      height <= 4 * RowCount(height, format) < height + 4
  {
  }

  /** How many bytes a block of `rows` rows of `width` bytes spans when consecutive
      rows start `stride` bytes apart: the last row need not be padded. */
  function Extent(rows: nat, stride: nat, width: nat): nat
  {
    if rows == 0 then 0 else (rows - 1) * stride + width
  }

  /** How many bytes `depth` slices of such blocks span, slices `depthPitch` apart. */
  function Extent3(depth: nat, depthPitch: nat, rows: nat, rowPitch: nat, width: nat): nat
  {
    if depth == 0 then 0 else (depth - 1) * depthPitch + Extent(rows, rowPitch, width)
  }

  lemma MulMono(a: nat, b: nat, c: nat)
    requires a <= b
    ensures a * c <= b * c
  {
  }

  /** A tightly packed block (stride == width) spans exactly rows * width bytes. */
  lemma PackedExtent(rows: nat, width: nat)
    ensures Extent(rows, width, width) == rows * width
  {
  }

  lemma ExtentGrows(rows: nat, stride: nat, width: nat)
    requires width <= stride
    ensures Extent(rows, stride, width) <= Extent(rows + 1, stride, width)
    ensures rows * stride + width == Extent(rows + 1, stride, width)
  {
  }

  /** A block of `rows` rows fits in `rows` row pitches. */
  lemma ExtentWithin(rows: nat, stride: nat, width: nat)
    requires width <= stride
    ensures Extent(rows, stride, width) <= rows * stride
  {
    if 0 < rows {
      ExtentGrows(rows - 1, stride, width);
      NextMultiple(rows - 1, stride);
    }
  }

  lemma ExtentMono(rows1: nat, rows2: nat, stride: nat, width: nat)
    requires rows1 <= rows2 && width <= stride
    ensures Extent(rows1, stride, width) <= Extent(rows2, stride, width)
  {
    if 0 < rows1 {
      MulMono(rows1 - 1, rows2 - 1, stride);
    }
  }

  lemma Extent3Grows(depth: nat, depthPitch: nat, rows: nat, rowPitch: nat, width: nat)
    ensures Extent3(depth, depthPitch, rows, rowPitch, width) <= Extent3(depth + 1, depthPitch, rows, rowPitch, width)
    ensures depth * depthPitch + Extent(rows, rowPitch, width) == Extent3(depth + 1, depthPitch, rows, rowPitch, width)
  {
  }

  lemma Extent3Mono(depth1: nat, depth2: nat, depthPitch: nat, rows: nat, rowPitch: nat, width: nat)
    requires depth1 <= depth2
    ensures Extent3(depth1, depthPitch, rows, rowPitch, width) <= Extent3(depth2, depthPitch, rows, rowPitch, width)
  {
    if 0 < depth1 {
      MulMono(depth1 - 1, depth2 - 1, depthPitch);
    }
  }

  /** The position of byte i of row y in a block whose rows start `stride` bytes apart;
      it lies inside the block. */
  function Offset(y: nat, i: nat, stride: nat, width: nat, rows: nat): (k: nat)
    requires y < rows && i < width <= stride
    ensures k < Extent(rows, stride, width)
    ensures stride == width ==> k < rows * width
  {
    MulMono(y, rows - 1, stride);
    PackedExtent(rows, width);
    y * stride + i
  }

  /** The tightly packed image of `rows` rows of `width` bytes taken from `src`, where
      they start `stride` bytes apart: what one readback writes into the caller's buffer. */
  function PackRows(src: seq<Byte>, stride: nat, width: nat, rows: nat): (packed: seq<Byte>)
    requires width <= stride && Extent(rows, stride, width) <= |src|
    ensures |packed| == rows * width
    decreases rows
  {
    if rows == 0 then []
    else
      ExtentGrows(rows - 1, stride, width);
      PackRows(src, stride, width, rows - 1) + src[(rows - 1) * stride .. (rows - 1) * stride + width]
  }

  /** The facts one iteration of the row copy needs: row y ends inside the block, the
      packed image grows by exactly that row, and it still fits the packed size. */
  lemma RowStep(src: seq<Byte>, stride: nat, width: nat, rows: nat, y: nat)
    requires width <= stride && Extent(rows, stride, width) <= |src| && y < rows
    ensures y * stride + width == Extent(y + 1, stride, width) <= |src|
    ensures (y + 1) * width == y * width + width <= rows * width
    ensures (y + 1) * stride == y * stride + stride
    ensures PackRows(src, stride, width, y + 1) == PackRows(src, stride, width, y) + src[y * stride..y * stride + width]
  {
    ExtentGrows(y, stride, width);
    ExtentMono(y + 1, rows, stride, width);
    NextMultiple(y, width);
    NextMultiple(y, stride);
    MulMono(y + 1, rows, width);
  }

  /** Byte i of row y of the packed image is byte i of row y of the source. */
  lemma {:induction false} PackRowsAt(src: seq<Byte>, stride: nat, width: nat, rows: nat, y: nat, i: nat)
    requires width <= stride && Extent(rows, stride, width) <= |src|
    requires y < rows && i < width
    ensures Offset(y, i, stride, width, rows) < |src|
    ensures PackRows(src, stride, width, rows)[Offset(y, i, width, width, rows)] == src[Offset(y, i, stride, width, rows)]
  {
    ExtentGrows(rows - 1, stride, width);
    var front := PackRows(src, stride, width, rows - 1);
    var last := src[(rows - 1) * stride..(rows - 1) * stride + width];
    assert PackRows(src, stride, width, rows) == front + last;
    if y < rows - 1 {
      PackRowsAt(src, stride, width, rows - 1, y, i);
      assert Offset(y, i, width, width, rows) == Offset(y, i, width, width, rows - 1) < |front|;
      assert Offset(y, i, stride, width, rows) == Offset(y, i, stride, width, rows - 1);
    } else {
      assert Offset(y, i, width, width, rows) == |front| + i;
      assert Offset(y, i, stride, width, rows) == (rows - 1) * stride + i;
    }
  }

  /** `packed` holds, tightly packed, the `rows` rows of `width` bytes that `src` holds
      `stride` bytes apart. */
  ghost predicate LaidOut(packed: seq<Byte>, src: seq<Byte>, stride: nat, width: nat, rows: nat)
    requires |packed| == rows * width && width <= stride && Extent(rows, stride, width) <= |src|
  {
    forall y: nat, i: nat | y < rows && i < width ::
      packed[Offset(y, i, width, width, rows)] == src[Offset(y, i, stride, width, rows)]
  }

  /** Position k of a packed block of `rows` rows of `width` bytes is byte i of row y. */
  lemma RowOf(k: nat, width: nat, rows: nat) returns (y: nat, i: nat)
    requires k < rows * width
    ensures y < rows && i < width && k == y * width + i
  {
    assert width > 0;
    y, i := k / width, k % width;
    if rows <= y {
      MulMono(rows, y, width);
    }
  }

  lemma PackedIsLaidOut(src: seq<Byte>, stride: nat, width: nat, rows: nat)
    requires width <= stride && Extent(rows, stride, width) <= |src|
    ensures LaidOut(PackRows(src, stride, width, rows), src, stride, width, rows)
  {
    forall y: nat, i: nat | y < rows && i < width
      ensures PackRows(src, stride, width, rows)[Offset(y, i, width, width, rows)] == src[Offset(y, i, stride, width, rows)]
    {
      PackRowsAt(src, stride, width, rows, y, i);
    }
  }

  lemma LaidOutIsPacked(src: seq<Byte>, stride: nat, width: nat, rows: nat, packed: seq<Byte>)
    requires width <= stride && Extent(rows, stride, width) <= |src|
    requires |packed| == rows * width && LaidOut(packed, src, stride, width, rows)
    ensures packed == PackRows(src, stride, width, rows)
  {
    var image := PackRows(src, stride, width, rows);
    forall k | 0 <= k < |packed|
      ensures packed[k] == image[k]
    {
      var y, i := RowOf(k, width, rows);
      var at := Offset(y, i, width, width, rows);
      assert at == k;
      PackRowsAt(src, stride, width, rows, y, i);
      assert image[at] == src[Offset(y, i, stride, width, rows)];
      assert packed[at] == src[Offset(y, i, stride, width, rows)];
    }
  }

  /** PackRows is characterised by the layout: a buffer is the packed image of the
      source exactly when it has the packed size and every byte sits where the
      row-by-row copy puts it. The "if" half is the readback round trip: a tightly
      packed buffer that the device laid out with any row pitch comes back unchanged. */
  lemma PackRowsIsLayout(src: seq<Byte>, stride: nat, width: nat, rows: nat, packed: seq<Byte>)
    requires width <= stride && Extent(rows, stride, width) <= |src|
    ensures PackRows(src, stride, width, rows) == packed <==>
            |packed| == rows * width && LaidOut(packed, src, stride, width, rows)
  {
    PackedIsLaidOut(src, stride, width, rows);
    if |packed| == rows * width && LaidOut(packed, src, stride, width, rows) {
      LaidOutIsPacked(src, stride, width, rows, packed);
    }
  }

  /** A block whose row pitch is already the row size comes back unchanged: its packed
      image is its first rows * width bytes. This is the layout CreateTexture2DFromMemory
      hands to the device: the caller's pixels with pitch RowSize. */
  lemma {:induction false} PackRowsTight(src: seq<Byte>, width: nat, rows: nat)
    requires rows * width <= |src|
    ensures Extent(rows, width, width) <= |src|
    ensures PackRows(src, width, width, rows) == src[..rows * width]
    decreases rows
  {
    PackedExtent(rows, width);
    if 0 < rows {
      NextMultiple(rows - 1, width);
      PackRowsTight(src, width, rows - 1);
      assert src[..rows * width] == src[..(rows - 1) * width] + src[(rows - 1) * width..(rows - 1) * width + width];
    }
  }

  /** The packed image of `depth` slices, each slice the packed image of its rows,
      slices `depthPitch` bytes apart in the source. */
  function PackSlices(src: seq<Byte>, depthPitch: nat, rowPitch: nat, width: nat, rows: nat, depth: nat): (packed: seq<Byte>)
    requires width <= rowPitch && Extent3(depth, depthPitch, rows, rowPitch, width) <= |src|
    ensures |packed| == depth * (rows * width)
    decreases depth
  {
    if depth == 0 then []
    else
      Extent3Grows(depth - 1, depthPitch, rows, rowPitch, width);
      PackSlices(src, depthPitch, rowPitch, width, rows, depth - 1)
        + PackRows(src[(depth - 1) * depthPitch..], rowPitch, width, rows)
  }

  lemma NextMultiple(n: nat, size: nat)
    ensures (n + 1) * size == n * size + size
  {
  }

  /** The facts one iteration of the slice copy needs: slice z ends inside the source,
      the packed image grows by exactly that slice's packed rows, and it still fits. */
  lemma SliceStep(src: seq<Byte>, depthPitch: nat, rowPitch: nat, width: nat, rows: nat, depth: nat, z: nat,
                  at: nat, from: nat)
    requires width <= rowPitch && Extent3(depth, depthPitch, rows, rowPitch, width) <= |src| && z < depth
    requires at == z * (rows * width) && from == z * depthPitch
    ensures from + Extent(rows, rowPitch, width) == Extent3(z + 1, depthPitch, rows, rowPitch, width) <= |src|
    ensures (z + 1) * (rows * width) == at + rows * width <= depth * (rows * width)
    ensures (z + 1) * depthPitch == from + depthPitch
    ensures PackSlices(src, depthPitch, rowPitch, width, rows, z + 1) ==
            PackSlices(src, depthPitch, rowPitch, width, rows, z) + PackRows(src[from..], rowPitch, width, rows)
  {
    Extent3Grows(z, depthPitch, rows, rowPitch, width);
    Extent3Mono(z + 1, depth, depthPitch, rows, rowPitch, width);
    NextMultiple(z, rows * width);
    NextMultiple(z, depthPitch);
    MulMono(z + 1, depth, rows * width);
  }

  /** Where block z of n equal blocks of `size` bytes sits in their concatenation. */
  lemma BlockBounds(z: nat, n: nat, size: nat, at: nat)
    requires z < n && at == z * size
    ensures (z + 1) * size == at + size <= n * size
    ensures z < n - 1 ==> at + size <= (n - 1) * size
  {
    NextMultiple(z, size);
    MulMono(z + 1, n, size);
    if z < n - 1 {
      MulMono(z + 1, n - 1, size);
    }
  }

  /** Byte i of row y of slice z of the packed image is byte i of row y of slice z of
      the source: the tightly packed position z * sliceSize + y * rowSize + i takes the
      byte at z * DepthPitch + y * RowPitch + i. */
  lemma {:induction false} PackSlicesAt(src: seq<Byte>, depthPitch: nat, rowPitch: nat, width: nat, rows: nat, depth: nat,
                                        z: nat, y: nat, i: nat)
    requires width <= rowPitch && Extent3(depth, depthPitch, rows, rowPitch, width) <= |src|
    requires z < depth && y < rows && i < width
    ensures z * (rows * width) + Offset(y, i, width, width, rows) < depth * (rows * width)
    ensures z * depthPitch + Offset(y, i, rowPitch, width, rows) < |src|
    ensures PackSlices(src, depthPitch, rowPitch, width, rows, depth)[z * (rows * width) + Offset(y, i, width, width, rows)]
         == src[z * depthPitch + Offset(y, i, rowPitch, width, rows)]
    decreases depth
  {
    BlockBounds(z, depth, rows * width, z * (rows * width));
    Extent3Grows(z, depthPitch, rows, rowPitch, width);
    Extent3Mono(z + 1, depth, depthPitch, rows, rowPitch, width);
    Extent3Grows(depth - 1, depthPitch, rows, rowPitch, width);
    if z < depth - 1 {
      PackSlicesAt(src, depthPitch, rowPitch, width, rows, depth - 1, z, y, i);
    } else {
      MulMono(0, z, depthPitch);
      PackRowsAt(src[z * depthPitch..], rowPitch, width, rows, y, i);
    }
  }

  /** The subresource index of mip `level` of array slice (cube face) `slice` in a
      texture with `mipLevels` levels per slice, as D3D11CalcSubresource numbers them. */
  function Subresource(slice: nat, level: nat, mipLevels: nat): nat
  {
    slice * mipLevels + level
  }

  /** The index determines the slice and the level: they are its quotient and remainder. */
  lemma SubresourceSplit(slice: nat, level: nat, mipLevels: nat)
    requires level < mipLevels
    ensures Subresource(slice, level, mipLevels) / mipLevels == slice
    ensures Subresource(slice, level, mipLevels) % mipLevels == level
  {
    var s := Subresource(slice, level, mipLevels);
    var q, r := s / mipLevels, s % mipLevels;
    assert s == q * mipLevels + r;
    if q < slice {
      MulMono(q + 1, slice, mipLevels);
    } else if slice < q {
      MulMono(slice + 1, q, mipLevels);
    }
  }

  /** So distinct (slice, level) pairs address distinct subresources. */
  lemma SubresourceInjective(slice1: nat, level1: nat, slice2: nat, level2: nat, mipLevels: nat)
    requires level1 < mipLevels && level2 < mipLevels
    requires Subresource(slice1, level1, mipLevels) == Subresource(slice2, level2, mipLevels)
    ensures slice1 == slice2 && level1 == level2
  {
    SubresourceSplit(slice1, level1, mipLevels);
    SubresourceSplit(slice2, level2, mipLevels);
  }

  /** And every index addresses a subresource of a texture with `slices` slices. */
  lemma SubresourceBelow(slice: nat, level: nat, mipLevels: nat, slices: nat)
    requires slice < slices && level < mipLevels
    ensures Subresource(slice, level, mipLevels) < slices * mipLevels
  {
    MulMono(slice + 1, slices, mipLevels);
  }
}
