/** The DXGI format catalogue: a name table and a bits-per-pixel table, both indexed
    by the format id and both total, falling back to "UNKNOWN" and 0 for an id outside
    the table (texture.cpp, NameOfFormat and BitsPerPixel). */
module Formats {

  /** A DXGI_FORMAT value: a signed 32-bit enum in the source, any integer here. */
  type Format = int

  /** The ids the rest of the framework names explicitly (DXGI numbering). */
  const UNKNOWN: Format := 0
  const R16G16B16A16_FLOAT: Format := 10
  const R8G8B8A8_UNORM: Format := 28
  const R8G8B8A8_UNORM_SRGB: Format := 29
  const R32_TYPELESS: Format := 39
  const D32_FLOAT: Format := 40
  const R32_FLOAT: Format := 41
  const BC1_UNORM: Format := 71
  /** The video formats AYUV .. IA44, whose bit depth the table leaves at 0. */
  const FIRST_VIDEO: Format := 100
  const LAST_VIDEO: Format := 112

  /** Every bit depth the table uses. */
  const PixelSizes: set<nat> := {0, 1, 4, 8, 16, 32, 64, 96, 128}

  /** The number of formats both tables describe. */
  const FormatCount: nat := 116

  const NamesFrom0: seq<string> :=
    [
      "UNKNOWN", "R32G32B32A32_TYPELESS", "R32G32B32A32_FLOAT", "R32G32B32A32_UINT",                // 0
      "R32G32B32A32_SINT", "R32G32B32_TYPELESS", "R32G32B32_FLOAT", "R32G32B32_UINT",               // 4
      "R32G32B32_SINT", "R16G16B16A16_TYPELESS", "R16G16B16A16_FLOAT", "R16G16B16A16_UNORM",        // 8
      "R16G16B16A16_UINT", "R16G16B16A16_SNORM", "R16G16B16A16_SINT", "R32G32_TYPELESS",            // 12
      "R32G32_FLOAT", "R32G32_UINT", "R32G32_SINT", "R32G8X24_TYPELESS"                             // 16
    ]

  const NamesFrom20: seq<string> :=
    [
      "D32_FLOAT_S8X24_UINT", "R32_FLOAT_X8X24_TYPELESS", "X32_TYPELESS_G8X24_UINT", "R10G10B10A2_TYPELESS",// 20
      "R10G10B10A2_UNORM", "R10G10B10A2_UINT", "R11G11B10_FLOAT", "R8G8B8A8_TYPELESS",              // 24
      "R8G8B8A8_UNORM", "R8G8B8A8_UNORM_SRGB", "R8G8B8A8_UINT", "R8G8B8A8_SNORM",                   // 28
      "R8G8B8A8_SINT", "R16G16_TYPELESS", "R16G16_FLOAT", "R16G16_UNORM",                           // 32
      "R16G16_UINT", "R16G16_SNORM", "R16G16_SINT", "R32_TYPELESS"                                  // 36
    ]

  const NamesFrom40: seq<string> :=
    [
      "D32_FLOAT", "R32_FLOAT", "R32_UINT", "R32_SINT",                                             // 40
      "R24G8_TYPELESS", "D24_UNORM_S8_UINT", "R24_UNORM_X8_TYPELESS", "X24_TYPELESS_G8_UINT",       // 44
      "R8G8_TYPELESS", "R8G8_UNORM", "R8G8_UINT", "R8G8_SNORM",                                     // 48
      "R8G8_SINT", "R16_TYPELESS", "R16_FLOAT", "D16_UNORM",                                        // 52
      "R16_UNORM", "R16_UINT", "R16_SNORM", "R16_SINT"                                              // 56
    ]

  const NamesFrom60: seq<string> :=
    [
      "R8_TYPELESS", "R8_UNORM", "R8_UINT", "R8_SNORM",                                             // 60
      "R8_SINT", "A8_UNORM", "R1_UNORM", "R9G9B9E5_SHAREDEXP",                                      // 64
      "R8G8_B8G8_UNORM", "G8R8_G8B8_UNORM", "BC1_TYPELESS", "BC1_UNORM",                            // 68
      "BC1_UNORM_SRGB", "BC2_TYPELESS", "BC2_UNORM", "BC2_UNORM_SRGB",                              // 72
      "BC3_TYPELESS", "BC3_UNORM", "BC3_UNORM_SRGB", "BC4_TYPELESS"                                 // 76
    ]

  const NamesFrom80: seq<string> :=
    [
      "BC4_UNORM", "BC4_SNORM", "BC5_TYPELESS", "BC5_UNORM",                                        // 80
      "BC5_SNORM", "B5G6R5_UNORM", "B5G5R5A1_UNORM", "B8G8R8A8_UNORM",                              // 84
      "B8G8R8X8_UNORM", "R10G10B10_XR_BIAS_A2_UNORM", "B8G8R8A8_TYPELESS", "B8G8R8A8_UNORM_SRGB",   // 88
      "B8G8R8X8_TYPELESS", "B8G8R8X8_UNORM_SRGB", "BC6H_TYPELESS", "BC6H_UF16",                     // 92
      "BC6H_SF16", "BC7_TYPELESS", "BC7_UNORM", "BC7_UNORM_SRGB"                                    // 96
    ]

  const NamesFrom100: seq<string> :=
    [
      "AYUV", "Y410", "Y416", "NV12",                                                               // 100
      "P010", "P016", "420_OPAQUE", "YUY2",                                                         // 104
      "Y210", "Y216", "NV11", "AI44",                                                               // 108
      "IA44", "P8", "A8P8", "B4G4R4A4_UNORM"                                                        // 112
    ]

  const FormatNames: seq<string> :=
    NamesFrom0 + NamesFrom20 + NamesFrom40 + NamesFrom60 + NamesFrom80 + NamesFrom100

  const BitsFrom0: seq<nat> :=
    [
      0, 128, 128, 128, 128, 96, 96, 96, 96, 64, 64, 64,        // 0
      64, 64, 64, 64, 64, 64, 64, 64, 64, 64, 64, 32            // 12
    ]

  const BitsFrom24: seq<nat> :=
    [
      32, 32, 32, 32, 32, 32, 32, 32, 32, 32, 32, 32,           // 24
      32, 32, 32, 32, 32, 32, 32, 32, 32, 32, 32, 32            // 36
    ]

  const BitsFrom48: seq<nat> :=
    [
      16, 16, 16, 16, 16, 16, 16, 16, 16, 16, 16, 16,           // 48
      8, 8, 8, 8, 8, 8, 1, 32, 16, 16, 4, 4                     // 60
    ]

  const BitsFrom72: seq<nat> :=
    [
      4, 8, 8, 8, 8, 8, 8, 4, 4, 4, 8, 8,                       // 72
      8, 16, 16, 32, 32, 32, 32, 32, 32, 32, 8, 8               // 84
    ]

  const BitsFrom96: seq<nat> :=
    [
      8, 8, 8, 8, 0, 0, 0, 0, 0, 0, 0, 0,                       // 96
      0, 0, 0, 0, 0, 8, 16, 16                                  // 108
    ]

  const BitsPerPixelTable: seq<nat> :=
    BitsFrom0 + BitsFrom24 + BitsFrom48 + BitsFrom72 + BitsFrom96

  /** The source's bounds check `uint(format) < dim(table)`: the unsigned cast sends
      every negative id past the end of the table as well. */
  predicate InTable<T>(table: seq<T>, format: Format)
  {
    0 <= format < |table|
  }

  predicate IsVideoFormat(format: Format)
  {
    FIRST_VIDEO <= format <= LAST_VIDEO
  }

  /** BC1 .. BC5 (ids 70 .. 84), BC6H and BC7 (ids 94 .. 99): formats whose texels are
      stored in 4 x 4 blocks, BitsPerPixel * 16 / 8 bytes to a block. */
  predicate IsBlockCompressed(format: Format)
  {
    70 <= format <= 84 || 94 <= format <= 99
  }

  /** The two tables have one entry per format id, and entry 0 is the unknown format. */
  lemma TablesParallel()
    ensures |FormatNames| == |BitsPerPixelTable| == FormatCount
    ensures FormatNames[UNKNOWN] == "UNKNOWN" && BitsPerPixelTable[UNKNOWN] == 0
  {
  }

  /** The name table block by block: each block sits at its ids in the table, and
      within the blocks only id 0 is named "UNKNOWN". */
  lemma NameBlock0()
    ensures |FormatNames| == FormatCount && FormatNames[0..20] == NamesFrom0
  {
  }

  lemma NamesFrom0Known()
    ensures |NamesFrom0| == 20
    ensures NamesFrom0[0] == "UNKNOWN"
    ensures forall j | 1 <= j < |NamesFrom0| :: NamesFrom0[j] != "UNKNOWN"
  {
  }

  lemma NameBlock20()
    ensures |FormatNames| == FormatCount && FormatNames[20..40] == NamesFrom20
  {
  }

  lemma NamesFrom20Known()
    ensures |NamesFrom20| == 20
    ensures forall j | 0 <= j < |NamesFrom20| :: NamesFrom20[j] != "UNKNOWN"
  {
  }

  lemma NameBlock40()
    ensures |FormatNames| == FormatCount && FormatNames[40..60] == NamesFrom40
  {
  }

  lemma NamesFrom40Known()
    ensures |NamesFrom40| == 20
    ensures forall j | 0 <= j < |NamesFrom40| :: NamesFrom40[j] != "UNKNOWN"
  {
  }

  lemma NameBlock60()
    ensures |FormatNames| == FormatCount && FormatNames[60..80] == NamesFrom60
  {
  }

  lemma NamesFrom60Known()
    ensures |NamesFrom60| == 20
    ensures forall j | 0 <= j < |NamesFrom60| :: NamesFrom60[j] != "UNKNOWN"
  {
  }

  lemma NameBlock80()
    ensures |FormatNames| == FormatCount && FormatNames[80..100] == NamesFrom80
  {
  }

  lemma NamesFrom80Known()
    ensures |NamesFrom80| == 20
    ensures forall j | 0 <= j < |NamesFrom80| :: NamesFrom80[j] != "UNKNOWN"
  {
  }

  lemma NameBlock100()
    ensures |FormatNames| == FormatCount && FormatNames[100..116] == NamesFrom100
  {
  }

  lemma NamesFrom100Known()
    ensures |NamesFrom100| == 16
    ensures forall j | 0 <= j < |NamesFrom100| :: NamesFrom100[j] != "UNKNOWN"
  {
  }

  lemma NameEntry(format: Format)
    requires 0 <= format < FormatCount
    ensures FormatNames[format] == "UNKNOWN" <==> format == UNKNOWN
  {
    if format < 20 {
      NameBlock0();
      NamesFrom0Known();
      assert FormatNames[format] == FormatNames[0..20][format - 0];
    } else if format < 40 {
      NameBlock20();
      NamesFrom20Known();
      assert FormatNames[format] == FormatNames[20..40][format - 20];
    } else if format < 60 {
      NameBlock40();
      NamesFrom40Known();
      assert FormatNames[format] == FormatNames[40..60][format - 40];
    } else if format < 80 {
      NameBlock60();
      NamesFrom60Known();
      assert FormatNames[format] == FormatNames[60..80][format - 60];
    } else if format < 100 {
      NameBlock80();
      NamesFrom80Known();
      assert FormatNames[format] == FormatNames[80..100][format - 80];
    } else {
      NameBlock100();
      NamesFrom100Known();
      assert FormatNames[format] == FormatNames[100..116][format - 100];
    }
  }

  /** The bits-per-pixel table block by block: every entry is one of the pixel sizes,
      and only id 0 and the video formats have size 0. */
  lemma BitsBlock0()
    ensures |BitsPerPixelTable| == FormatCount && BitsPerPixelTable[0..24] == BitsFrom0
  {
  }

  lemma BitsFrom0Known()
    ensures |BitsFrom0| == 24
    ensures BitsFrom0[0] == 0
    ensures forall j | 1 <= j < |BitsFrom0| :: BitsFrom0[j] in PixelSizes - {0}
  {
  }

  lemma BitsBlock24()
    ensures |BitsPerPixelTable| == FormatCount && BitsPerPixelTable[24..48] == BitsFrom24
  {
  }

  lemma BitsFrom24Known()
    ensures |BitsFrom24| == 24
    ensures forall j | 0 <= j < |BitsFrom24| :: BitsFrom24[j] in PixelSizes - {0}
  {
  }

  lemma BitsBlock48()
    ensures |BitsPerPixelTable| == FormatCount && BitsPerPixelTable[48..72] == BitsFrom48
  {
  }

  lemma BitsFrom48Known()
    ensures |BitsFrom48| == 24
    ensures forall j | 0 <= j < |BitsFrom48| :: BitsFrom48[j] in PixelSizes - {0}
  {
  }

  lemma BitsBlock72()
    ensures |BitsPerPixelTable| == FormatCount && BitsPerPixelTable[72..96] == BitsFrom72
  {
  }

  lemma BitsFrom72Known()
    ensures |BitsFrom72| == 24
    ensures forall j | 0 <= j < |BitsFrom72| :: BitsFrom72[j] in PixelSizes - {0}
  {
  }

  lemma BitsBlock96()
    ensures |BitsPerPixelTable| == FormatCount && BitsPerPixelTable[96..116] == BitsFrom96
  {
  }

  lemma BitsFrom96Known()
    ensures |BitsFrom96| == 20
    ensures forall j | 0 <= j < |BitsFrom96| :: BitsFrom96[j] in PixelSizes
    ensures forall j | 0 <= j < |BitsFrom96| :: BitsFrom96[j] == 0 <==> FIRST_VIDEO <= 96 + j <= LAST_VIDEO
  {
  }

  lemma BitsEntry(format: Format)
    requires 0 <= format < FormatCount
    ensures BitsPerPixelTable[format] in PixelSizes
    ensures BitsPerPixelTable[format] == 0 <==> format == UNKNOWN || IsVideoFormat(format)
  {
    if format < 24 {
      BitsBlock0();
      BitsFrom0Known();
      assert BitsPerPixelTable[format] == BitsPerPixelTable[0..24][format - 0];
    } else if format < 48 {
      BitsBlock24();
      BitsFrom24Known();
      assert BitsPerPixelTable[format] == BitsPerPixelTable[24..48][format - 24];
    } else if format < 72 {
      BitsBlock48();
      BitsFrom48Known();
      assert BitsPerPixelTable[format] == BitsPerPixelTable[48..72][format - 48];
    } else if format < 96 {
      BitsBlock72();
      BitsFrom72Known();
      assert BitsPerPixelTable[format] == BitsPerPixelTable[72..96][format - 72];
    } else {
      BitsBlock96();
      BitsFrom96Known();
      assert BitsPerPixelTable[format] == BitsPerPixelTable[96..116][format - 96];
    }
  }

  /** The display name of a format; never fails. */
  function NameOfFormat(format: Format): (name: string)
    ensures name == "UNKNOWN" <==> format == UNKNOWN || !InTable(FormatNames, format)
  {
    TablesParallel();
    if !InTable(FormatNames, format) then "UNKNOWN" else NameEntry(format); FormatNames[format]
  }

  /** Every name the lookup returns is a catalogue entry, the fallback included. */
  lemma NameIsCatalogued(format: Format)
    ensures NameOfFormat(format) in FormatNames
  {
    TablesParallel();
  }

  /** The size of one pixel in bits; never fails. */
  function BitsPerPixel(format: Format): (bits: nat)
    ensures bits in PixelSizes
    ensures bits == 0 <==> format == UNKNOWN || IsVideoFormat(format) || !InTable(BitsPerPixelTable, format)
  {
    TablesParallel();
    if !InTable(BitsPerPixelTable, format) then 0 else BitsEntry(format); BitsPerPixelTable[format]
  }

  /** The ids the loaders and the presentation surface pass around by name are the
      entries of the name table that carry those names... */
  lemma NamedFormats()
    ensures NameOfFormat(R16G16B16A16_FLOAT) == "R16G16B16A16_FLOAT"
    ensures NameOfFormat(R8G8B8A8_UNORM) == "R8G8B8A8_UNORM"
    ensures NameOfFormat(R8G8B8A8_UNORM_SRGB) == "R8G8B8A8_UNORM_SRGB"
    ensures NameOfFormat(R32_TYPELESS) == "R32_TYPELESS"
    ensures NameOfFormat(D32_FLOAT) == "D32_FLOAT"
    ensures NameOfFormat(R32_FLOAT) == "R32_FLOAT"
    ensures NameOfFormat(FIRST_VIDEO) == "AYUV" && NameOfFormat(LAST_VIDEO) == "IA44"
  {
    NameBlock0();
    NameBlock20();
    NameBlock40();
    NameBlock100();
  }

  /** ... and their pixel sizes are the ones the byte layouts assume. */
  lemma NamedFormatSizes()
    ensures BitsPerPixel(R16G16B16A16_FLOAT) == 64
    ensures BitsPerPixel(R8G8B8A8_UNORM) == BitsPerPixel(R8G8B8A8_UNORM_SRGB) == 32
    ensures BitsPerPixel(R32_TYPELESS) == BitsPerPixel(D32_FLOAT) == BitsPerPixel(R32_FLOAT) == 32
  {
  }

  /** Both lookups fall back together: past the end of the catalogue, and for every
      negative id, the name is "UNKNOWN" and the size is 0, exactly as for entry 0. */
  lemma OutOfRangeFallback(format: Format)
    requires format < 0 || format >= FormatCount
    ensures NameOfFormat(format) == NameOfFormat(UNKNOWN) == "UNKNOWN"
    ensures BitsPerPixel(format) == BitsPerPixel(UNKNOWN) == 0
  {
  }
}
