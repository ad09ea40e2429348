/** Texture2D, TextureCube and Texture3D (texture.cpp): a device texture, its
    shader-resource view, an optional unordered-access view, and the size, mip count and
    format recorded beside them. Init creates the objects, Release drops them, and
    Readback copies one mip level (of one cube face) into a tightly packed CPU buffer. */
module Textures {
  import opened Gpu
  import opened Formats
  import opened Pitch

  /** The TEXFLAG bits that Init tests. */
  datatype TexFlags = TexFlags(mipmaps: bool, enableUav: bool)

  /** `buf` with bytes [at, at + |r|) replaced by `r`: the whole buffer after a copy. */
  function Overwrite(buf: seq<Byte>, at: nat, r: seq<Byte>): (res: seq<Byte>)
    requires at + |r| <= |buf|
    ensures |res| == |buf|
  {
    buf[..at] + r + buf[at + |r|..]
  }

  /** An overwrite keeps everything before `at`, holds `r` at `at` and keeps everything after. */
  lemma OverwriteParts(buf: seq<Byte>, at: nat, r: seq<Byte>)
    requires at + |r| <= |buf|
    ensures Overwrite(buf, at, r)[..at] == buf[..at]
    ensures Overwrite(buf, at, r)[at..at + |r|] == r
    ensures Overwrite(buf, at, r)[at + |r|..] == buf[at + |r|..]
  {
    var res := Overwrite(buf, at, r);
    assert res[..at] == buf[..at];
    assert res[at..at + |r|] == r;
    assert res[at + |r|..] == buf[at + |r|..];
  }

  /** Writing `r` at `at` and then `r2` right after it is writing r + r2 at `at`. */
  lemma OverwriteExtend(buf: seq<Byte>, at: nat, r: seq<Byte>, r2: seq<Byte>)
    requires at + |r| + |r2| <= |buf|
    ensures Overwrite(Overwrite(buf, at, r), at + |r|, r2) == Overwrite(buf, at, r + r2)
  {
    var mid := Overwrite(buf, at, r);
    OverwriteParts(buf, at, r);
    assert mid[..at + |r|] == buf[..at] + r;
    assert mid[at + |r| + |r2|..] == buf[at + |r| + |r2|..];
  }

  /** One memcpy of a row: `width` bytes of `src` from `s` land at `dst` and nothing else
      in the buffer changes. */
  method CopyRow(out: array<Byte>, dst: nat, src: seq<Byte>, s: nat, width: nat)
    requires dst + width <= out.Length && s + width <= |src|
    modifies out
    ensures out[..] == Overwrite(old(out[..]), dst, src[s..s + width])
  {
    ghost var before := out[..];
    forall k | 0 <= k < width {
      out[dst + k] := src[s + k];
    }
    assert out[..dst] == before[..dst];
    assert out[dst..dst + width] == src[s..s + width];
    assert out[dst + width..] == before[dst + width..];
    assert out[..] == out[..dst] + out[dst..dst + width] + out[dst + width..];
  }

  /** Row y of the readback copy: the memcpy of rowSize bytes from data + y * RowPitch to
      out + y * rowSize extends the rows packed before it. */
  method AppendRow(block: seq<Byte>, stride: nat, width: nat, y: nat, out: array<Byte>, to: nat, ghost base: seq<Byte>)
    requires width <= stride && Extent(y, stride, width) <= |block| && Extent(y + 1, stride, width) <= |block|
    requires to + y * width + width <= |base| == out.Length
    requires out[..] == Overwrite(base, to, PackRows(block, stride, width, y))
    modifies out
    ensures out[..] == Overwrite(base, to, PackRows(block, stride, width, y + 1))
  {
    var dst, s := to + y * width, y * stride;
    ExtentGrows(y, stride, width);
    ghost var packed, row := PackRows(block, stride, width, y), block[s..s + width];
    assert PackRows(block, stride, width, y + 1) == packed + row && to + |packed| == dst;
    CopyRow(out, dst, block, s, width);
    OverwriteExtend(base, to, packed, row);
  }

  /** The readback copy loop: row y of the block that starts at `from` in the mapped data
      goes to out + to + y * width, in case the row pitch differs from the row size. */
  method CopyRows(src: seq<Byte>, from: nat, stride: nat, width: nat, rows: nat, out: array<Byte>, to: nat)
    requires width <= stride && from + Extent(rows, stride, width) <= |src|
    requires to + rows * width <= out.Length
    modifies out
    ensures out[..] == Overwrite(old(out[..]), to, PackRows(src[from..], stride, width, rows))
  {
    var block := src[from..];
    var y := 0;
    ghost var base := out[..];
    assert base == base[..to] + base[to..];
    while y < rows
      invariant y <= rows && Extent(y, stride, width) <= |block| && to + y * width <= |base|
      invariant out[..] == Overwrite(base, to, PackRows(block, stride, width, y))
    {
      RowStep(block, stride, width, rows, y);
      AppendRow(block, stride, width, y, out, to, base);
      y := y + 1;
    }
  }

  /** Slice z of the 3D copy: its rows extend the packed slices before it, and the bytes
      after them are still those of `base`. */
  method CopySlice(src: seq<Byte>, depthPitch: nat, rowPitch: nat, width: nat, rows: nat, z: nat,
                   dst: nat, s: nat, out: array<Byte>, ghost base: seq<Byte>)
    requires width <= rowPitch && Extent3(z + 1, depthPitch, rows, rowPitch, width) <= |src|
    requires s + Extent(rows, rowPitch, width) == Extent3(z + 1, depthPitch, rows, rowPitch, width)
    requires PackSlices(src, depthPitch, rowPitch, width, rows, z + 1) ==
             PackSlices(src, depthPitch, rowPitch, width, rows, z) + PackRows(src[s..], rowPitch, width, rows)
    requires dst == z * (rows * width) && dst + rows * width <= |base| == out.Length
    requires out[..dst] == PackSlices(src, depthPitch, rowPitch, width, rows, z) && out[dst..] == base[dst..]
    modifies out
    ensures out[..dst + rows * width] == PackSlices(src, depthPitch, rowPitch, width, rows, z + 1)
    ensures out[dst + rows * width..] == base[dst + rows * width..]
  {
    ghost var before := out[..];
    ghost var slice := PackRows(src[s..], rowPitch, width, rows);
    CopyRows(src, s, rowPitch, width, rows, out, dst);
    OverwriteParts(before, dst, slice);
    assert out[..dst + rows * width] == out[..dst] + out[dst..dst + rows * width];
    assert before[dst + rows * width..] == before[dst..][rows * width..];
  }

  /** The 3D readback copy loop: slice z goes to out + z * sliceSize, row by row. */
  method CopySlices(src: seq<Byte>, depthPitch: nat, rowPitch: nat, width: nat, rows: nat, depth: nat, out: array<Byte>)
    requires width <= rowPitch && Extent3(depth, depthPitch, rows, rowPitch, width) <= |src|
    requires depth * (rows * width) <= out.Length
    modifies out
    ensures out[..depth * (rows * width)] == PackSlices(src, depthPitch, rowPitch, width, rows, depth)
    ensures out[depth * (rows * width)..] == old(out[depth * (rows * width)..])
  {
    var sliceSize := rows * width;
    var z, dst, s := 0, 0, 0;
    ghost var base := out[..];
    while z < depth
      invariant z <= depth && dst == z * sliceSize && s == z * depthPitch && dst <= depth * sliceSize
      invariant Extent3(z, depthPitch, rows, rowPitch, width) <= |src|
      invariant out[..dst] == PackSlices(src, depthPitch, rowPitch, width, rows, z)
      invariant out[dst..] == base[dst..]
    {
      SliceStep(src, depthPitch, rowPitch, width, rows, depth, z, dst, s);
      CopySlice(src, depthPitch, rowPitch, width, rows, z, dst, s, out, base);
      z, dst, s := z + 1, dst + sliceSize, s + depthPitch;
    }
  }

  /** The mapped data holds, `rows` rows of `width` bytes apart by at least `width`, as
      far as the row-by-row copy reads (the RowPitch >= rowSize check, and the bytes the
      last memcpy reaches). */
  predicate Readable(m: Mapped, width: nat, rows: nat)
  {
    width <= m.rowPitch && Extent(rows, m.rowPitch, width) <= |m.data|
  }

  /** The same for `depth` slices (the DepthPitch >= sliceSize check). */
  predicate Readable3(m: Mapped, width: nat, rows: nat, depth: nat)
  {
    width <= m.rowPitch && rows * width <= m.depthPitch &&
    Extent3(depth, m.depthPitch, rows, m.rowPitch, width) <= |m.data|
  }

  /** What Map hands back for a subresource stored in `rows` rows of `width` bytes: a row
      pitch of at least a row and `rows` row pitches of data. */
  predicate MapShaped(m: Mapped, width: nat, rows: nat)
  {
    width <= m.rowPitch && rows * m.rowPitch <= |m.data|
  }

  /** The same for `depth` slices, each at least `rows` row pitches, one depth pitch apart. */
  predicate MapShaped3(m: Mapped, width: nat, rows: nat, depth: nat)
  {
    width <= m.rowPitch && rows * m.rowPitch <= m.depthPitch && depth * m.depthPitch <= |m.data|
  }

  /** Copying the stored rows of a subresource stays inside what Map hands back. */
  lemma MappedRowsReadable(m: Mapped, width: nat, rows: nat)
    requires MapShaped(m, width, rows)
    ensures Readable(m, width, rows)
  {
    ExtentWithin(rows, m.rowPitch, width);
  }

  /** And so does copying the stored slices, and a packed slice fits in a depth pitch. */
  lemma MappedSlicesReadable(m: Mapped, width: nat, rows: nat, depth: nat)
    requires MapShaped3(m, width, rows, depth)
    ensures Readable3(m, width, rows, depth)
  {
    MulMono(width, m.rowPitch, rows);
    ExtentWithin(rows, m.rowPitch, width);
    if 0 < depth {
      NextMultiple(depth - 1, m.depthPitch);
    }
  }

  /** The readback loops as written copy mipDims.y rows of RowSize bytes whatever the
      format. For a 16 x 16 BC1 level Map stores 4 rows of blocks, 32 bytes each, 128 bytes
      in all: the RowPitch >= rowSize check passes (32 >= 8), but the sixteen row copies
      reach byte 488. Copying the stored rows (RowCount and RowBytes) reads exactly the
      128 bytes. */
  lemma BlockReadbackAsWrittenOverruns()
    ensures var m := Mapped(seq(128, _ => 0), 32, 128);
      MapShaped(m, RowBytes(16, BC1_UNORM), RowCount(16, BC1_UNORM)) &&
      RowSize(16, BC1_UNORM) <= m.rowPitch &&
      Extent(16, m.rowPitch, RowSize(16, BC1_UNORM)) == 488 &&
      !Readable(m, RowSize(16, BC1_UNORM), 16) &&
      Extent(RowCount(16, BC1_UNORM), m.rowPitch, RowBytes(16, BC1_UNORM)) == |m.data|
  {
    BitsBlock48();
    assert BitsPerPixelTable[BC1_UNORM] == BitsFrom48[23] == 4;
    assert RowSize(16, BC1_UNORM) == 8;
    assert RowBytes(16, BC1_UNORM) == 32;
  }

  class Texture2D {
    var tex: Handle
    var srv: View
    var uav: View
    var dims: Int2
    var mipLevels: int
    var format: Format

    /** The state the constructor and Release leave behind. */
    predicate Released()
      reads this
    {
      tex == Null && srv == NoView && uav == NoView && dims == Int2(0, 0) &&
      mipLevels == 0 && format == UNKNOWN
    }

    /** Either released, or a live texture with its shader-resource view over it and at
        least one mip level. */
    predicate Valid()
      reads this
    {
      (tex.Null? ==> Released()) &&
      (tex.Live? ==> srv.ViewOf? && srv.resource == tex.id && srv.format == format && 1 <= mipLevels)
    }

    constructor ()
      ensures Released() && Valid()
    {
      tex, srv, uav := Null, NoView, NoView;
      dims, mipLevels, format := Int2(0, 0), 0, UNKNOWN;
    }

    /** Creates the texture, its shader-resource view and, with EnableUAV, its
        unordered-access view; the mip chain is full (mipCount, CalculateMipCount) with
        Mipmaps and a single level otherwise. Without EnableUAV the old UAV is kept. */
    method Init(device: Device, dims: Int2, format: Format, flags: TexFlags, mipCount: Int2 -> int)
      requires flags.mipmaps ==> 1 <= mipCount(dims)
      modifies this, device
      ensures Valid() && tex.Live?
      ensures tex == Live(old(device.issued)) && srv == ViewOf(old(device.issued) + 1, tex.id, format)
      ensures flags.enableUav ==> uav == ViewOf(old(device.issued) + 2, tex.id, format) && device.issued == old(device.issued) + 3
      ensures !flags.enableUav ==> uav == old(uav) && device.issued == old(device.issued) + 2
      ensures mipLevels == (if flags.mipmaps then mipCount(dims) else 1)
      ensures this.dims == dims && this.format == format
    {
      var levels := if flags.mipmaps then mipCount(dims) else 1;
      tex := device.CreateResource();
      srv := device.CreateView(tex, format);
      if flags.enableUav {
        uav := device.CreateView(tex, format);
      }
      this.dims := dims;
      mipLevels := levels;
      this.format := format;
    }

    method Release()
      modifies this
      ensures Released() && Valid()
    {
      tex, srv, uav := Null, NoView, NoView;
      dims, mipLevels, format := Int2(0, 0), 0, UNKNOWN;
    }

    /** Copies mip `level` into `out`, tightly packed: the staging copy of subresource
        `level` is mapped (`staging` holds what Map hands back for each subresource) and
        its stored rows are copied one by one (block rows for a block-compressed format,
        see BlockReadbackAsWrittenOverruns). mipDimsOf is CalculateMipDims. */
    method Readback(level: int, mipDimsOf: (Int2, int) -> Int2, staging: seq<Mapped>, out: array<Byte>)
      requires Valid() && tex.Live?
      requires 0 <= level < mipLevels && |staging| == mipLevels
      requires 0 <= mipDimsOf(dims, level).x && 0 <= mipDimsOf(dims, level).y
      requires Readable(staging[level], RowBytes(mipDimsOf(dims, level).x, format), RowCount(mipDimsOf(dims, level).y, format))
      requires PackedSize(mipDimsOf(dims, level).x, mipDimsOf(dims, level).y, 1, format) <= out.Length
      modifies out
      ensures var m := mipDimsOf(dims, level);
        out[..PackedSize(m.x, m.y, 1, format)] == PackRows(staging[level].data, staging[level].rowPitch, RowBytes(m.x, format), RowCount(m.y, format)) &&
        out[PackedSize(m.x, m.y, 1, format)..] == old(out[PackedSize(m.x, m.y, 1, format)..])
    {
      var mipDims := mipDimsOf(dims, level);
      var mapped := staging[Subresource(0, level, mipLevels)];
      var rowSize := RowBytes(mipDims.x, format);
      ghost var before := out[..];
      CopyRows(mapped.data, 0, mapped.rowPitch, rowSize, RowCount(mipDims.y, format), out, 0);
      assert mapped.data[0..] == mapped.data;
      OverwriteParts(before, 0, PackRows(mapped.data, mapped.rowPitch, rowSize, RowCount(mipDims.y, format)));
    }
  }

  class TextureCube {
    var tex: Handle
    var srv: View
    var uav: View
    var cubeSize: int
    var mipLevels: int
    var format: Format

    predicate Released()
      reads this
    {
      tex == Null && srv == NoView && uav == NoView && cubeSize == 0 &&
      mipLevels == 0 && format == UNKNOWN
    }

    predicate Valid()
      reads this
    {
      (tex.Null? ==> Released()) &&
      (tex.Live? ==> srv.ViewOf? && srv.resource == tex.id && srv.format == format && 1 <= mipLevels)
    }

    constructor ()
      ensures Released() && Valid()
    {
      tex, srv, uav := Null, NoView, NoView;
      cubeSize, mipLevels, format := 0, 0, UNKNOWN;
    }

    /** Creates a six-face cube texture of cubeSize x cubeSize faces and its views. */
    method Init(device: Device, cubeSize: int, format: Format, flags: TexFlags, mipCount: int -> int)
      requires flags.mipmaps ==> 1 <= mipCount(cubeSize)
      modifies this, device
      ensures Valid() && tex.Live?
      ensures tex == Live(old(device.issued)) && srv == ViewOf(old(device.issued) + 1, tex.id, format)
      ensures flags.enableUav ==> uav == ViewOf(old(device.issued) + 2, tex.id, format) && device.issued == old(device.issued) + 3
      ensures !flags.enableUav ==> uav == old(uav) && device.issued == old(device.issued) + 2
      ensures mipLevels == (if flags.mipmaps then mipCount(cubeSize) else 1)
      ensures this.cubeSize == cubeSize && this.format == format
    {
      var levels := if flags.mipmaps then mipCount(cubeSize) else 1;
      tex := device.CreateResource();
      srv := device.CreateView(tex, format);
      if flags.enableUav {
        uav := device.CreateView(tex, format);
      }
      this.cubeSize := cubeSize;
      mipLevels := levels;
      this.format := format;
    }

    method Release()
      modifies this
      ensures Released() && Valid()
    {
      tex, srv, uav := Null, NoView, NoView;
      cubeSize, mipLevels, format := 0, 0, UNKNOWN;
    }

    /** Copies mip `level` of face `face` into `out`, tightly packed. The staging copy is
        made of subresource face * mipLevels + level, one of the 6 * mipLevels the cube has. */
    method Readback(face: int, level: int, mipDimOf: (int, int) -> int, staging: seq<Mapped>, out: array<Byte>)
      requires Valid() && tex.Live?
      requires 0 <= face < 6 && 0 <= level < mipLevels && |staging| == 6 * mipLevels
      requires 0 <= mipDimOf(cubeSize, level)
      requires Subresource(face, level, mipLevels) < |staging| &&
               Readable(staging[Subresource(face, level, mipLevels)], RowBytes(mipDimOf(cubeSize, level), format), RowCount(mipDimOf(cubeSize, level), format))
      requires PackedSize(mipDimOf(cubeSize, level), mipDimOf(cubeSize, level), 1, format) <= out.Length
      modifies out
      ensures var size, mapped := mipDimOf(cubeSize, level), staging[Subresource(face, level, mipLevels)];
        out[..PackedSize(size, size, 1, format)] == PackRows(mapped.data, mapped.rowPitch, RowBytes(size, format), RowCount(size, format)) &&
        out[PackedSize(size, size, 1, format)..] == old(out[PackedSize(size, size, 1, format)..])
    {
      var mipDim := mipDimOf(cubeSize, level);
      SubresourceBelow(face, level, mipLevels, 6);
      var mapped := staging[Subresource(face, level, mipLevels)];
      var rowSize := RowBytes(mipDim, format);
      ghost var before := out[..];
      CopyRows(mapped.data, 0, mapped.rowPitch, rowSize, RowCount(mipDim, format), out, 0);
      assert mapped.data[0..] == mapped.data;
      OverwriteParts(before, 0, PackRows(mapped.data, mapped.rowPitch, rowSize, RowCount(mipDim, format)));
    }
  }

  class Texture3D {
    var tex: Handle
    var srv: View
    var uav: View
    var dims: Int3
    var mipLevels: int
    var format: Format

    predicate Released()
      reads this
    {
      tex == Null && srv == NoView && uav == NoView && dims == Int3(0, 0, 0) &&
      mipLevels == 0 && format == UNKNOWN
    }

    predicate Valid()
      reads this
    {
      (tex.Null? ==> Released()) &&
      (tex.Live? ==> srv.ViewOf? && srv.resource == tex.id && srv.format == format && 1 <= mipLevels)
    }

    constructor ()
      ensures Released() && Valid()
    {
      tex, srv, uav := Null, NoView, NoView;
      dims, mipLevels, format := Int3(0, 0, 0), 0, UNKNOWN;
    }

    method Init(device: Device, dims: Int3, format: Format, flags: TexFlags, mipCount: Int3 -> int)
      requires flags.mipmaps ==> 1 <= mipCount(dims)
      modifies this, device
      ensures Valid() && tex.Live?
      ensures tex == Live(old(device.issued)) && srv == ViewOf(old(device.issued) + 1, tex.id, format)
      ensures flags.enableUav ==> uav == ViewOf(old(device.issued) + 2, tex.id, format) && device.issued == old(device.issued) + 3
      ensures !flags.enableUav ==> uav == old(uav) && device.issued == old(device.issued) + 2
      ensures mipLevels == (if flags.mipmaps then mipCount(dims) else 1)
      ensures this.dims == dims && this.format == format
    {
      var levels := if flags.mipmaps then mipCount(dims) else 1;
      tex := device.CreateResource();
      srv := device.CreateView(tex, format);
      if flags.enableUav {
        uav := device.CreateView(tex, format);
      }
      this.dims := dims;
      mipLevels := levels;
      this.format := format;
    }

    method Release()
      modifies this
      ensures Released() && Valid()
    {
      tex, srv, uav := Null, NoView, NoView;
      dims, mipLevels, format := Int3(0, 0, 0), 0, UNKNOWN;
    }

    /** Copies mip `level` into `out` slice by slice and stored row by stored row: slice z,
        row y goes to z * sliceSize + y * rowSize, whatever the mapped pitches are. */
    method Readback(level: int, mipDimsOf: (Int3, int) -> Int3, staging: seq<Mapped>, out: array<Byte>)
      requires Valid() && tex.Live?
      requires 0 <= level < mipLevels && |staging| == mipLevels
      requires 0 <= mipDimsOf(dims, level).x && 0 <= mipDimsOf(dims, level).y && 0 <= mipDimsOf(dims, level).z
      requires Readable3(staging[level], RowBytes(mipDimsOf(dims, level).x, format), RowCount(mipDimsOf(dims, level).y, format), mipDimsOf(dims, level).z)
      requires PackedSize(mipDimsOf(dims, level).x, mipDimsOf(dims, level).y, mipDimsOf(dims, level).z, format) <= out.Length
      modifies out
      ensures var m, mapped := mipDimsOf(dims, level), staging[level];
        out[..PackedSize(m.x, m.y, m.z, format)] ==
          PackSlices(mapped.data, mapped.depthPitch, mapped.rowPitch, RowBytes(m.x, format), RowCount(m.y, format), m.z) &&
        out[PackedSize(m.x, m.y, m.z, format)..] == old(out[PackedSize(m.x, m.y, m.z, format)..])
    {
      var mipDims := mipDimsOf(dims, level);
      var mapped := staging[level];
      var rowSize := RowBytes(mipDims.x, format);
      CopySlices(mapped.data, mapped.depthPitch, mapped.rowPitch, rowSize, RowCount(mipDims.y, format), mipDims.z, out);
    }
  }
}
