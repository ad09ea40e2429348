/** The texture helper functions of texture.cpp: loading a 2D texture or a cube map from
    an image file through D3DX, and creating a 1x1 texture, a 1x1 cube map or a 2D
    texture from pixels in memory. Each fills in an existing Texture2D or TextureCube. */
module Loaders {
  import opened Gpu
  import opened Formats
  import opened Pitch
  import opened Textures

  /** The TEXLOADFLAG bits the loaders test. */
  datatype LoadFlags = LoadFlags(mipmap: bool, srgb: bool, hdr: bool)

  /** D3DX11_IMAGE_LOAD_INFO.MipLevels: D3DX11_DEFAULT (a full mip chain) or 1. */
  datatype MipRequest = FullChain | SingleLevel

  /** The parts of D3DX11_IMAGE_LOAD_INFO the loaders choose. */
  datatype ImageLoadInfo = ImageLoadInfo(mipLevels: MipRequest, format: Format, srgbFilter: bool, cube: bool)

  /** The format a texture is loaded in: HDR images are linear 16-bit float whatever the
      SRGB flag says, others 8-bit UNORM, in SRGB space when asked. */
  function LoadFormat(flags: LoadFlags): (format: Format)
    ensures format == R16G16B16A16_FLOAT <==> flags.hdr
    ensures format == R8G8B8A8_UNORM_SRGB <==> flags.srgb && !flags.hdr
    ensures format == R8G8B8A8_UNORM <==> !flags.srgb && !flags.hdr
  {
    if flags.hdr then R16G16B16A16_FLOAT
    else if flags.srgb then R8G8B8A8_UNORM_SRGB
    else R8G8B8A8_UNORM
  }

  /** The load request both loaders build; the cube map loader adds the TEXTURECUBE flag. */
  function LoadInfo(flags: LoadFlags, cube: bool): (info: ImageLoadInfo)
    ensures info.format == LoadFormat(flags) && info.cube == cube
    ensures info.mipLevels == FullChain <==> flags.mipmap
  {
    ImageLoadInfo(if flags.mipmap then FullChain else SingleLevel, LoadFormat(flags),
                  flags.srgb, cube)
  }

  /** The SRGB flag reaches the load filter even for HDR images, where it does not change
      the format. */
  lemma HdrIgnoresSrgb(flags: LoadFlags, cube: bool)
    requires flags.hdr
    ensures LoadInfo(flags, cube).format == LoadInfo(flags.(srgb := !flags.srgb), cube).format
    ensures LoadInfo(flags, cube).srgbFilter != LoadInfo(flags.(srgb := !flags.srgb), cube).srgbFilter
  {
  }

  /** The load formats are named in the catalogue, and their pixel sizes are 8 bytes for
      HDR and 4 otherwise. */
  lemma LoadFormatCatalogued(flags: LoadFlags)
    ensures BitsPerPixel(LoadFormat(flags)) == if flags.hdr then 64 else 32
    ensures NameOfFormat(LoadFormat(flags)) == "R8G8B8A8_UNORM_SRGB" <==> flags.srgb && !flags.hdr
  {
    NamedFormats();
    NamedFormatSizes();
  }

  /** The D3D11_SRV_DIMENSION of the view D3DX created. */
  datatype ViewDimension = Texture2DView | TextureCubeView | OtherView(code: int)

  /** A mip level count as a created texture reports it. */
  type Count = n: int | 1 <= n witness 1

  /** The parts of D3D11_TEXTURE2D_DESC the loaders read back. */
  datatype TexDesc = TexDesc(width: int, height: int, mipLevels: Count, arraySize: int, format: Format, cubeFlag: bool)

  /** What D3DX11CreateShaderResourceViewFromFile makes of the image file: nothing, or a
      view of some dimension over a resource that may or may not be a Texture2D. */
  datatype LoadResult = LoadFailed | Loaded(dimension: ViewDimension, isTexture2D: bool, desc: TexDesc)

  /** Loads a 2D texture. `decode` stands for D3DX reading the file at the given path with
      the given load request. On any failure it returns false and the texture is left as
      it was; on success the texture takes the loaded objects, size, mip count and format. */
  method LoadTexture2D(device: Device, decode: ImageLoadInfo -> LoadResult, texOut: Texture2D, flags: LoadFlags)
    returns (ok: bool)
    modifies device, texOut
    ensures var r := decode(LoadInfo(flags, false));
      ok <==> r.Loaded? && r.dimension == Texture2DView && r.isTexture2D
    ensures !ok ==> unchanged(texOut)
    ensures ok ==> texOut.Valid()
    ensures ok ==> var d := decode(LoadInfo(flags, false)).desc;
      texOut.tex == Live(old(device.issued)) && texOut.srv == ViewOf(old(device.issued) + 1, texOut.tex.id, d.format) &&
      texOut.uav == old(texOut.uav) && texOut.dims == Int2(d.width, d.height) &&
      texOut.mipLevels == d.mipLevels && texOut.format == d.format
  {
    var result := decode(LoadInfo(flags, false));
    if result.LoadFailed? {
      return false;
    }
    var tex := device.CreateResource();
    var srv := device.CreateView(tex, result.desc.format);
    if result.dimension != Texture2DView {
      return false;
    }
    if !result.isTexture2D {
      return false;
    }
    var desc := result.desc;
    texOut.tex := tex;
    texOut.srv := srv;
    texOut.dims := Int2(desc.width, desc.height);
    texOut.mipLevels := desc.mipLevels;
    texOut.format := desc.format;
    return true;
  }

  /** Loads a cube map, as LoadTexture2D does; a loaded cube is required to have square
      faces, six array slices and the TEXTURECUBE flag (the loader stops otherwise). */
  method LoadTextureCube(device: Device, decode: ImageLoadInfo -> LoadResult, texOut: TextureCube, flags: LoadFlags)
    returns (ok: bool)
    requires var r := decode(LoadInfo(flags, true));
      r.Loaded? && r.dimension == TextureCubeView && r.isTexture2D ==>
        r.desc.width == r.desc.height && r.desc.arraySize == 6 && r.desc.cubeFlag
    modifies device, texOut
    ensures var r := decode(LoadInfo(flags, true));
      ok <==> r.Loaded? && r.dimension == TextureCubeView && r.isTexture2D
    ensures !ok ==> unchanged(texOut)
    ensures ok ==> texOut.Valid()
    ensures ok ==> var d := decode(LoadInfo(flags, true)).desc;
      texOut.tex == Live(old(device.issued)) && texOut.srv == ViewOf(old(device.issued) + 1, texOut.tex.id, d.format) &&
      texOut.uav == old(texOut.uav) && texOut.cubeSize == d.width &&
      texOut.mipLevels == d.mipLevels && texOut.format == d.format
  {
    var result := decode(LoadInfo(flags, true));
    if result.LoadFailed? {
      return false;
    }
    var tex := device.CreateResource();
    var srv := device.CreateView(tex, result.desc.format);
    if result.dimension != TextureCubeView {
      return false;
    }
    if !result.isTexture2D {
      return false;
    }
    var desc := result.desc;
    texOut.tex := tex;
    texOut.srv := srv;
    texOut.cubeSize := desc.width;
    texOut.mipLevels := desc.mipLevels;
    texOut.format := desc.format;
    return true;
  }

  /** An 8-bit RGBA colour, the byte4 the float colour is quantised to. */
  datatype Byte4 = Byte4(r: Byte, g: Byte, b: Byte, a: Byte)

  function Bytes(c: Byte4): (bytes: seq<Byte>)
    ensures |bytes| == 4
  {
    [c.r, c.g, c.b, c.a]
  }

  /** The bytes of an array of colours, one after another. */
  function Flatten(colours: seq<Byte4>): (bytes: seq<Byte>)
    ensures |bytes| == 4 * |colours|
  {
    if colours == [] then [] else Flatten(colours[..|colours| - 1]) + Bytes(colours[|colours| - 1])
  }

  /** Byte i of the flattened array is channel i % 4 of colour i / 4. */
  lemma {:induction false} FlattenAt(colours: seq<Byte4>, i: nat)
    requires i < 4 * |colours|
    ensures Flatten(colours)[i] == Bytes(colours[i / 4])[i % 4]
    decreases |colours|
  {
    var n := |colours| - 1;
    if i < 4 * n {
      FlattenAt(colours[..n], i);
      assert colours[..n][i / 4] == colours[i / 4];
    } else {
      assert i / 4 == n && i % 4 == i - 4 * n;
    }
  }

  /** D3D11_SUBRESOURCE_DATA: the bytes of one subresource and its row pitch. */
  datatype SubresourceData = SubresourceData(bytes: seq<Byte>, pitch: nat)

  /** CreateTexture2D reads one D3D11_SUBRESOURCE_DATA per subresource, arraySize *
      mipLevels of them, and each must hold the rows of its 1x1 pixel. */
  predicate InitialisesEverySubresource(init: seq<SubresourceData>, arraySize: nat, mipLevels: nat, rowSize: nat)
  {
    |init| == arraySize * mipLevels &&
    forall s | 0 <= s < |init| :: rowSize <= init[s].pitch && rowSize <= |init[s].bytes|
  }

  /** Creates a 1x1 texture of the given colour, initialised from its four bytes. */
  method CreateTexture1x1(device: Device, colour: Byte4, texOut: Texture2D, format: Format)
    returns (init: SubresourceData)
    modifies device, texOut
    ensures init == SubresourceData(Bytes(colour), 4)
    ensures texOut.Valid()
    ensures texOut.tex == Live(old(device.issued)) && texOut.srv == ViewOf(old(device.issued) + 1, texOut.tex.id, format)
    ensures texOut.uav == old(texOut.uav) && texOut.dims == Int2(1, 1) && texOut.mipLevels == 1 && texOut.format == format
  {
    init := SubresourceData(Bytes(colour), 4);
    var tex := device.CreateResource();
    var srv := device.CreateView(tex, format);
    texOut.tex := tex;
    texOut.srv := srv;
    texOut.dims := Int2(1, 1);
    texOut.mipLevels := 1;
    texOut.format := format;
  }

  /** The colorBytes[6] array of CreateTextureCube1x1: the initialiser sets entry 0 to the
      colour (and zero-fills the rest), and the loop copies entry 0 to entries 1 to 5. */
  method ReplicateColour(colour: Byte4) returns (faces: seq<Byte4>)
    ensures |faces| == 6
    ensures forall face | 0 <= face < 6 :: faces[face] == colour
  {
    var colourBytes := new Byte4[6](i => if i == 0 then colour else Byte4(0, 0, 0, 0));
    for i := 1 to colourBytes.Length
      invariant forall j | 0 <= j < i :: colourBytes[j] == colour
    {
      colourBytes[i] := colourBytes[0];
    }
    faces := colourBytes[..];
  }

  /** The initial data CreateTextureCube1x1 hands to CreateTexture2D as written: a single
      entry holding all six colours, with the whole 24-byte array as its row pitch. */
  function CubeInitialDataAsWritten(faces: seq<Byte4>): (init: seq<SubresourceData>)
    ensures |init| == 1
  {
    [SubresourceData(Flatten(faces), 4 * |faces|)]
  }

  /** What a six-slice, one-level texture needs: one entry per face, each the face's
      colour with the 4-byte row pitch of a 1x1 RGBA8 row. */
  function CubeInitialData(faces: seq<Byte4>): (init: seq<SubresourceData>)
    ensures |init| == |faces|
    ensures forall face | 0 <= face < |faces| :: init[face] == SubresourceData(Bytes(faces[face]), 4)
  {
    seq(|faces|, face requires 0 <= face < |faces| => SubresourceData(Bytes(faces[face]), 4))
  }

  /** As written, only subresource 0 gets an entry: CreateTexture2D reads five more
      entries past the end of the one passed. */
  lemma CubeInitialDataAsWrittenFallsShort(faces: seq<Byte4>)
    requires |faces| == 6
    ensures !InitialisesEverySubresource(CubeInitialDataAsWritten(faces), 6, 1, 4)
    ensures forall face | 1 <= face < 6 :: |CubeInitialDataAsWritten(faces)| <= Subresource(face, 0, 1)
  {
  }

  /** With one entry per face every subresource is initialised, and each face of mip 0,
      read back as a 1x1 image, is the colour. */
  lemma CubeInitialDataCoversFaces(colour: Byte4, faces: seq<Byte4>)
    requires |faces| == 6 && forall face | 0 <= face < 6 :: faces[face] == colour
    ensures InitialisesEverySubresource(CubeInitialData(faces), 6, 1, 4)
    ensures forall face | 0 <= face < 6 ::
      var entry := CubeInitialData(faces)[Subresource(face, 0, 1)];
      Extent(1, entry.pitch, 4) <= |entry.bytes| && PackRows(entry.bytes, entry.pitch, 4, 1) == Bytes(colour)
  {
    forall face | 0 <= face < 6
      ensures var entry := CubeInitialData(faces)[Subresource(face, 0, 1)];
        Extent(1, entry.pitch, 4) <= |entry.bytes| && PackRows(entry.bytes, entry.pitch, 4, 1) == Bytes(colour)
    {
      PackRowsTight(Bytes(colour), 4, 1);
    }
  }

  /** Creates a 1x1 cube map whose six faces are the given colour, with one initial-data
      entry per face (CubeInitialDataAsWritten is the single entry the source passes). */
  method CreateTextureCube1x1(device: Device, colour: Byte4, texOut: TextureCube, format: Format)
    returns (init: seq<SubresourceData>)
    modifies device, texOut
    ensures |init| == 6 && forall face | 0 <= face < 6 :: init[face] == SubresourceData(Bytes(colour), 4)
    ensures texOut.Valid()
    ensures texOut.tex == Live(old(device.issued)) && texOut.srv == ViewOf(old(device.issued) + 1, texOut.tex.id, format)
    ensures texOut.uav == old(texOut.uav) && texOut.cubeSize == 1 && texOut.mipLevels == 1 && texOut.format == format
  {
    var faces := ReplicateColour(colour);
    init := CubeInitialData(faces);
    var tex := device.CreateResource();
    var srv := device.CreateView(tex, format);
    texOut.tex := tex;
    texOut.srv := srv;
    texOut.cubeSize := 1;
    texOut.mipLevels := 1;
    texOut.format := format;
  }

  /** Creates an immutable single-level 2D texture from tightly packed pixels: the initial
      data is the caller's pixels with row pitch dims.x * BitsPerPixel / 8. */
  method CreateTexture2DFromMemory(device: Device, dims: Int2, format: Format, pixels: seq<Byte>, texOut: Texture2D)
    returns (init: SubresourceData)
    requires 0 <= dims.x && 0 <= dims.y
    modifies device, texOut
    ensures init == SubresourceData(pixels, RowSize(dims.x, format))
    ensures texOut.Valid()
    ensures texOut.tex == Live(old(device.issued)) && texOut.srv == ViewOf(old(device.issued) + 1, texOut.tex.id, format)
    ensures texOut.uav == old(texOut.uav) && texOut.dims == dims && texOut.mipLevels == 1 && texOut.format == format
  {
    init := SubresourceData(pixels, RowSize(dims.x, format));
    var tex := device.CreateResource();
    var srv := device.CreateView(tex, format);
    texOut.tex := tex;
    texOut.srv := srv;
    texOut.dims := dims;
    texOut.mipLevels := 1;
    texOut.format := format;
  }
}
