# reed-framework textures and window, modelled in Dafny

This project models two parts of reed-framework, a small C++ framework for Direct3D 11
demos.

`texture.cpp` holds the texture wrappers:

- `Texture2D`, `TextureCube` and `Texture3D` each own a device texture, its shader-resource
  view and an optional unordered-access view. Beside these they record the size, the mip
  count and the DXGI format.
- `Init` creates the objects and `Release` drops them.
- `Readback` copies one mip level (of one cube face) into a caller's buffer, tightly packed.
  It copies row by row (and slice by slice), because the mapped staging copy may use
  larger row and depth pitches.
- The file also has the loaders for image files, which choose the load format from the
  TEXLOADFLAG bits.
- It has creators for 1x1 textures, 1x1 cube maps and 2D textures built from memory.
- It has the two lookup tables `NameOfFormat` and `BitsPerPixel`, indexed by DXGI format id.

`d3d11-window.cpp` holds `D3D11Window`:

- A Win32 window with a device and a swap chain.
- The swap chain's back buffer with an sRGB and a raw render-target view.
- An optional depth buffer with a depth-stencil view and a shader-resource view.
- The window procedure. It shuts the window down on WM_CLOSE and posts the quit message on
  WM_DESTROY. On WM_SIZE/WM_SIZING it rebuilds the size-dependent objects, but only when the
  new client size is non-empty and differs from the current one.
- The main loop. It renders frames until the window handle becomes null.

The modules follow the code:

- `Gpu` holds the graphics-API values. Device objects are numbered handles handed out by a
  `Device` class, so each one is new. Pixel memory is sequences of bytes.
- `Formats` holds the two format tables.
- `Pitch` holds the address arithmetic of readback: the packed image of a pitched block and
  the subresource index.
- `Textures` holds the texture classes and the in-place copy loops.
- `Loaders` holds the loaders and creators.
- `Window` holds the window class.

Calls into Direct3D, DXGI, D3DX and Win32 are not modelled as code:

- Object creation mints a fresh id from `Device`.
- D3DX decoding an image file is a function parameter `decode`.
- `CalculateMipCount` and `CalculateMipDims` are function parameters.
- What `Map` returns for each staging subresource is a parameter.
- The fatal checks `CHECK_D3D` and `ASSERT_ERR` become preconditions.

## Model

| member | source | states |
|---|---|---|
| Formats.NameOfFormat | texture.cpp:660-789 | the name is "UNKNOWN" exactly for id 0 and for ids outside the 116-entry table, negative ids included (the unsigned cast) |
| Formats.NameEntry | texture.cpp:662-780 | inside the table, only entry 0 is named "UNKNOWN" |
| Formats.NameIsCatalogued | texture.cpp:660-789 | every name returned, the fallback included, is a catalogue entry |
| Formats.BitsPerPixel | texture.cpp:791-925 | the size is one of the listed pixel sizes, and it is 0 exactly for id 0, the video formats AYUV..IA44 and ids outside the table |
| Formats.BitsEntry | texture.cpp:793-916 | every table entry is a listed pixel size; only entry 0 and the video formats are 0 |
| Formats.TablesParallel | texture.cpp:662-916 | both tables have one entry per format id (116), and entry 0 is ("UNKNOWN", 0) |
| Formats.OutOfRangeFallback | texture.cpp:782-924 | out of range, both lookups fall back together to what id 0 gives: "UNKNOWN" and 0 |
| Formats.NamedFormats | texture.cpp:662-780 | the format ids the loaders and the window use carry their DXGI names in the table |
| Formats.NamedFormatSizes | texture.cpp:793-916 | those formats are 64 bits (R16G16B16A16_FLOAT) or 32 bits per pixel |
| Pitch.PackRowsAt | texture.cpp:109-117 | byte i of row y of the packed image is source byte y * RowPitch + i, at packed position y * rowSize + i |
| Pitch.PackRowsIsLayout | texture.cpp:109-117 | a buffer is the packed image exactly when it has rows * rowSize bytes and every byte sits where the row copy puts it |
| Pitch.PackRowsTight | texture.cpp:109-117 | when RowPitch equals rowSize, the packed image is the first rows * rowSize bytes unchanged |
| Pitch.StoredRows | texture.cpp:109-117 | the rows a readback copies: for formats that are not block-compressed, mipDims.y rows of RowSize bytes, exactly as written; for BC formats, the rows of 4 x 4 blocks, which cover every texel row with none left over |
| Pitch.PackSlicesAt | texture.cpp:346-360 | byte (z, y, i) of the packed 3D image is at z * sliceSize + y * rowSize + i and comes from z * DepthPitch + y * RowPitch + i |
| Pitch.SubresourceSplit | texture.cpp:224 | subresource face * mipLevels + level splits back into face and level by quotient and remainder |
| Pitch.SubresourceInjective | texture.cpp:224 | distinct (face, level) pairs address distinct subresources |
| Pitch.SubresourceBelow | texture.cpp:224 | every face < 6, level < mipLevels addresses one of the 6 * mipLevels subresources |
| Textures.CopyRow | texture.cpp:113-116 | one memcpy: the whole buffer afterwards is the old one with the rowSize source bytes at the destination, every other byte unchanged |
| Textures.AppendRow | texture.cpp:111-116 | iteration y of the row loop: the copy of source row y, at y * RowPitch, lands at y * rowSize and extends the y rows packed before it; the rest of the buffer is still the original |
| Textures.CopyRows | texture.cpp:109-117 | the whole buffer afterwards is the old one with the packed image of the block at the destination; no byte before it or past rows * rowSize changes |
| Textures.MappedRowsReadable | texture.cpp:104-117 | a mapping of Map's shape (row pitch at least a row, `rows` row pitches of data) holds every byte the row copy reads, so the copy stays inside it |
| Textures.MappedSlicesReadable | texture.cpp:343-360 | the same for `depth` slices, and a packed slice fits in a depth pitch (the DepthPitch >= sliceSize check) |
| Textures.BlockReadbackAsWrittenOverruns | texture.cpp:109-117 | as written, a 16 x 16 BC1 level passes the RowPitch check but its 16 row copies reach byte 488 of a 128-byte mapping; the stored block rows read exactly the 128 bytes |
| Textures.CopySlice | texture.cpp:353-359 | iteration z of the slice loop: the rows of slice z, at z * DepthPitch, extend the z slices packed before them; the bytes after them are still the original |
| Textures.CopySlices | texture.cpp:346-360 | the slice loop leaves the packed 3D image in the buffer and writes nothing past depth * sliceSize |
| Textures.Texture2D.constructor | texture.cpp:8-16 | a new texture holds no objects, zero size and mips, and format UNKNOWN |
| Textures.Texture2D.Init | texture.cpp:18-60 | new texture and SRV in the given format; a UAV exactly when EnableUAV is set; mip count from CalculateMipCount with Mipmaps and 1 otherwise; dims and format recorded |
| Textures.Texture2D.Release | texture.cpp:62-70 | all objects dropped and fields reset to the constructor's state, whatever the state before, so a second call changes nothing |
| Textures.Texture2D.Readback | texture.cpp:72-120 | needs a live texture and 0 <= level < mipLevels; the buffer receives the packed stored rows of that level's mapped data and nothing past rows * rowSize changes (block rows for BC formats, the corrected copy of the finding below) |
| Textures.TextureCube.constructor | texture.cpp:126-134 | as for Texture2D, with cube size 0 |
| Textures.TextureCube.Init | texture.cpp:136-180 | as Texture2D.Init, recording the cube size |
| Textures.TextureCube.Release | texture.cpp:182-190 | as Texture2D.Release |
| Textures.TextureCube.Readback | texture.cpp:192-242 | needs 0 <= face < 6 and 0 <= level < mipLevels; copies the stored rows of subresource face * mipLevels + level, packed, and nothing past them changes |
| Textures.Texture3D.constructor | texture.cpp:248-256 | as for Texture2D, with zero 3D size |
| Textures.Texture3D.Init | texture.cpp:258-299 | as Texture2D.Init, recording the 3D size |
| Textures.Texture3D.Release | texture.cpp:301-309 | as Texture2D.Release |
| Textures.Texture3D.Readback | texture.cpp:311-363 | needs RowPitch >= rowSize and DepthPitch >= sliceSize; the buffer receives the packed slices of stored rows and nothing past depth * sliceSize changes |
| Loaders.LoadFormat | texture.cpp:393-394 | R16G16B16A16_FLOAT iff HDR; R8G8B8A8_UNORM_SRGB iff SRGB without HDR; R8G8B8A8_UNORM iff neither |
| Loaders.LoadInfo | texture.cpp:389-396 | the load request asks for a full mip chain iff Mipmap is set, in the load format, cube-flagged for cube maps |
| Loaders.HdrIgnoresSrgb | texture.cpp:383-395 | with HDR, the SRGB flag changes the load filter but not the format |
| Loaders.LoadFormatCatalogued | texture.cpp:393-394 | load formats are 64 bits per pixel with HDR and 32 otherwise, and only SRGB without HDR gives the sRGB name |
| Loaders.LoadTexture2D | texture.cpp:369-442 | returns true iff the file loads as a 2D-texture view over a Texture2D; on false the texture is unchanged; on true it takes the new texture and SRV, the size, mips and format of the loaded description |
| Loaders.LoadTextureCube | texture.cpp:444-521 | the same for cube maps; a loaded cube must have square faces, 6 slices and the cube flag |
| Loaders.CreateTexture1x1 | texture.cpp:527-568 | a 1x1, one-level texture of the format, initialised with the colour's four bytes at pitch 4 |
| Loaders.ReplicateColour | texture.cpp:580-582 | after the initialiser and the copy loop, all six entries of the array are the colour |
| Loaders.FlattenAt | texture.cpp:580 | the byte4 array is laid out colour after colour: byte i is channel i % 4 of colour i / 4 |
| Loaders.CubeInitialDataAsWritten | texture.cpp:595 | the initial data as written is a single entry |
| Loaders.CubeInitialDataAsWrittenFallsShort | texture.cpp:584-597 | a single entry does not initialise the 6 subresources of the cube; faces 1 to 5 index past it |
| Loaders.CubeInitialData | texture.cpp:580-597 | one entry per face, each the face's colour at pitch 4 |
| Loaders.CubeInitialDataCoversFaces | texture.cpp:580-597 | with one entry per face every subresource is initialised, and each face reads back as the colour |
| Loaders.CreateTextureCube1x1 | texture.cpp:570-614 | a 1x1, one-level cube map of the format; the initial data is the corrected one, one entry per face holding the colour (the source passes a single entry, see Findings) |
| Loaders.CreateTexture2DFromMemory | texture.cpp:616-656 | a one-level texture of the given size and format, initialised from the caller's pixels at pitch dims.x * BitsPerPixel / 8 |
| Window.SizeFromLParam | d3d11-window.cpp:346 | WM_SIZE's LOWORD and HIWORD are each below 0x10000 |
| Window.SizeRoundTrip | d3d11-window.cpp:346 | unpacking a width and height packed into the low and high words gives them back |
| Window.ResizeGate | d3d11-window.cpp:347 | a resize happens iff both new dimensions are positive and the size differs; a repeated size never resizes; from 0 x 0 every positive size does |
| Window.OpenBatches | d3d11-window.cpp:288-303 | the number of message batches before the first WM_CLOSE: none of them holds one, and the next one does |
| Window.OpenBatchesStop | d3d11-window.cpp:297-299 | a loop that first finds the window closed after batch i has rendered OpenBatches frames |
| Window.OpenBatchesAll | d3d11-window.cpp:297-299 | with no WM_CLOSE at all, every batch is followed by a frame |
| Window.D3D11Window.constructor | d3d11-window.cpp:14-43 | no window, device, swap chain or targets; dims 0 x 0; depth buffer enabled |
| Window.D3D11Window.Init | d3d11-window.cpp:111-127 | after Init there is a window handle, a device and a swap chain whose buffers are 1 x 1, and no targets yet |
| Window.D3D11Window.ReleaseTargets | d3d11-window.cpp:379-385 | all six size-dependent objects are released; every other field, the recorded depth size and format included, is unchanged |
| Window.D3D11Window.ResizeBuffers | d3d11-window.cpp:387-389 | the swap chain can only be resized once every target is released, and takes the new size; no other field changes |
| Window.D3D11Window.CreateBackBufferTargets | d3d11-window.cpp:391-404 | a new back buffer with an R8G8B8A8_UNORM_SRGB and an R8G8B8A8_UNORM render-target view over it |
| Window.D3D11Window.CreateDepthTargets | d3d11-window.cpp:406-434 | a new R32_TYPELESS depth texture of the new size, with a D32_FLOAT depth-stencil view and an R32_FLOAT shader-resource view over it |
| Window.D3D11Window.OnResize | d3d11-window.cpp:373-435 | afterwards dims and swap chain equal the new size; back buffer and views are ready; the depth trio is present iff the window has a depth buffer; every object held is newly created; handle, device, swap chain and flags are unchanged |
| Window.D3D11Window.OnRender | d3d11-window.cpp:302 | one more frame; no window state changes |
| Window.D3D11Window.Shutdown | d3d11-window.cpp:267-276 | the window handle becomes null; destroying a live window posts the quit message (DestroyWindow delivers WM_DESTROY first); a second call changes nothing |
| Window.D3D11Window.HandleSize | d3d11-window.cpp:344-366 | when the gate passes, the targets are rebuilt at the new size and one frame is rendered; otherwise nothing changes and nothing is created |
| Window.D3D11Window.MsgProc | d3d11-window.cpp:332-371 | WM_CLOSE nulls the handle and, on a live window, posts quit; WM_DESTROY posts quit; WM_SIZE/WM_SIZING rebuild every target at the new size and render one frame when the gate passes, and change nothing and create nothing otherwise; WM_CLOSE, WM_DESTROY and other messages leave the swap chain size, m_dims, every target, the depth size and format and the frame count as they were and create nothing; only other messages go to DefWindowProc |
| Window.D3D11Window.DispatchAll | d3d11-window.cpp:290-295 | after a batch the handle is null iff the batch held WM_CLOSE; otherwise it is unchanged; messages after a WM_CLOSE are still dispatched |
| Window.D3D11Window.MainLoop | d3d11-window.cpp:278-304 | the loop stops exactly when the handle becomes null, after rendering one frame per batch before the first WM_CLOSE, and leaves the window consistent |

## Left out

- Direct3D, DXGI, D3DX and Win32 calls are not modelled as code. Object creation hands out fresh ids and nothing more.
- Image decoding, `Map`, `CalculateMipCount` and `CalculateMipDims` are parameters; their formulas are not part of this model.
- The staging texture `Readback` creates and copies into is not modelled. `staging` is what `Map` hands back for each subresource of the texture.
- `Unmap` is not modelled.
- Reference counting of comptr and the device context are left out.
- Window.D3D11Window.Init: covers only the window handle, device and swap chain. Left out are: window class registration and window creation, adapter enumeration, the debug info queue, the rasterizer, depth, blend and sampler states, the blit shaders and the constant buffer.
- The float colour of `CreateTexture1x1` and `CreateTextureCube1x1` is taken as its already quantised RGBA8 bytes. The `round(255 * saturate(c))` step is floating point.
- Viewports, `Blit`, the `NvOptimus` export and `StaticMsgProc` are not part of this model.
- The `WM_SIZE` that `ShowWindow` sends at the start of `MainLoop` is not modelled.
- Window.D3D11Window.MainLoop: the source loops until the window is gone. The model runs over a finite sequence of message batches and reports whether it stopped.
- Integers are unbounded. The source's `int` offsets, such as `y * rowSize` and `z * sliceSize`, stay far below 2^31 within Direct3D 11's resource size limit, so no overflow is modelled.
- `LOG`, `WARN` and the non-fatal warning for HDR together with SRGB are dropped.
- Textures.Texture2D.Init: the unordered-access view is only created, never cleared. Without EnableUAV, Init and the loaders leave an earlier view in place, as the source does.
- Default arguments are not modelled as defaults; callers pass every argument. The defaults are TEXFLAG_Default and TEXLOADFLAG_Default, and DXGI_FORMAT_R8G8B8A8_UNORM_SRGB for the 1x1 creators.
- Loaders.CreateTextureCube1x1: models the corrected call, with one initial-data entry per face. The single entry texture.cpp:595 passes is modelled separately by Loaders.CubeInitialDataAsWritten; see Findings.
- Textures.Texture2D.Readback: the three readbacks model the corrected copy, over stored rows. For formats that are not block-compressed this is the source's copy exactly (Pitch.StoredRows). For BC formats the source's copy is modelled separately by Textures.BlockReadbackAsWrittenOverruns; see Findings.
- Loaders.CreateTexture2DFromMemory: the pitch is modelled as written, dims.x * BitsPerPixel / 8. For a block-compressed format that is not the pitch of a block row, the same miscount the readback finding shows; the model does not correct it.
- Window.D3D11Window.Shutdown: the WM_DESTROY that DestroyWindow sends is modelled by its effect (the quit message is posted), not as a re-entrant call of MsgProc.

## Findings

| source | as written | input that shows it | evidently intended | confidence | as-written member | corrected member |
|---|---|---|---|---|---|---|
| texture.cpp:109-117 | The Readback loops copy mipDims.y rows of mipDims.x * BitsPerPixel / 8 bytes, RowPitch apart, whatever the format. The same holds at texture.cpp:231-239 and texture.cpp:347-360. A block-compressed subresource is stored in ceil(height / 4) rows of 4 x 4 blocks, RowPitch apart. | A 16 x 16 BC1_UNORM level is mapped as 4 block rows of 32 bytes, 128 bytes. RowPitch 32 >= rowSize 8 passes, but the last memcpy reads bytes 480 to 487. | Copy the ceil(height / 4) block rows of ceil(width / 4) blocks each (Pitch.RowCount, Pitch.RowBytes). This is unchanged for every other format. | not executed | Textures.BlockReadbackAsWrittenOverruns | Textures.MappedRowsReadable |
| texture.cpp:595-597 | `CreateTextureCube1x1` passes one `D3D11_SUBRESOURCE_DATA` whose pitch is the whole 24-byte colour array. The texture has 6 array slices and 1 mip level, and `CreateTexture2D` reads one entry per subresource. | Any colour: subresources 1 to 5 (faces 1 to 5) have no entry, and the call reads past the single struct. | An array of six entries, one per face, each pointing at that face's four bytes with row pitch 4. | not executed | Loaders.CubeInitialDataAsWrittenFallsShort | Loaders.CubeInitialDataCoversFaces |
