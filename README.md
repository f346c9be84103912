# Stackistry utilities: pixel-format and export-format bookkeeping

This project models the format bookkeeping in Stackistry's utility functions
(`Utils` in `src/utils.cpp`), the GTK front end of the libskry
astronomical image-stacking library. It covers five operations:

- **FindMatchingFormat** scans libskry's pixel formats in enumeration order.
  It skips the palette format and returns the first format whose channel
  count and bits per channel suit a requested output format. It returns
  SKRY_PIX_INVALID when no format matches.
- **ConvertImgToSurface** turns a libskry image into a Cairo RGB24 surface,
  whose bytes are laid out as SKRY_PIX_BGRA8. An image in another format is
  converted first; if that conversion fails, the result is a null surface.
  Otherwise the surface gets the original image's width and height, and
  `stride` bytes of each row are copied to offset `row * stride`.
- **EnumerateSupportedOutputFmts** appends one descriptor per output format
  that libskry supports to the process-wide descriptor list. Name, glob
  patterns and default extension come from a fixed table of three formats.
- **GetOutputFormatDescr** returns the first descriptor in that list with a
  given format id.
- **GetErrorMsg** maps a libskry result code to its message.

Files:

- `skry.dfy` (module `Skry`): the libskry enumerators and static tables that
  these functions consult, and an `Option` type.
- `pixel_format_resolver.dfy` (module `PixelFormatResolver`): the format scan.
  `FindMatchingFormat` is a method with the source's loop and early return.
  It is proved equal to the recursive specification `FirstMatchFrom`, whose
  contract says the result is the first match.
- `image_surface.dfy` (module `ImageSurface`): images, the `Surface` class
  (Cairo's image surface, with an `array<bv8>` buffer), `MemCopy`, the row
  loop `CopyRows` and `ConvertImgToSurface`. The surface's final bytes are
  `SurfaceBytes`: the first `stride` bytes of each row, one row after another
  (`RowMajor`), then the zero rows that were not written.
- `output_format_catalog.dfy` (module `OutputFormatCatalog`): the descriptor
  datatype and the descriptor table. The `Catalog` class holds the
  process-wide list as a `seq` field. Its methods are
  `EnumerateSupportedOutputFmts` (push a default descriptor, set its id,
  then fill it from the table) and `GetOutputFormatDescr` (linear search).
- `error_messages.dfy` (module `ErrorMessages`): the result codes and
  `GetErrorMsg`. `CodeOfMessage` reads a message back to its code, which
  shows that no two listed codes share a message.

Collaborators that are not part of this model become parameters:

- `libskry::c_Image::ConvertPixelFormat` is a function parameter that may
  return `None`.
- The list that `SKRY_get_supported_output_formats` returns is a sequence
  parameter.
- The tables `NUM_CHANNELS`, `BITS_PER_CHANNEL` and
  `OUTPUT_FMT_BITS_PER_CHANNEL` are abstract sequences in `FormatTables`.
- The stride that Cairo picks for a new surface is an input with
  `stride >= width * 4`.

Behaviour of the code that a reader might not expect, modelled as written:

- The descriptor list is not built once. Every call of
  `EnumerateSupportedOutputFmts` appends, so calling it twice lists every
  format twice (`EnumerateTwiceDuplicates`).
- The descriptor table has three cases. A format outside them keeps an empty
  name, no patterns and an empty extension (`Describe`).
- The row loop runs over the height of the converted image, but the surface
  is sized by the original image. The model requires the converted image to
  be no taller than the original (`FitsSurface`). Rows the loop does not
  reach stay zero, as Cairo fills a new surface with zeros.

## Model

| member | source | states |
|---|---|---|
| `PixelFormatResolver.FirstMatchFrom` | src/utils.cpp:142-150 | the result is never the palette format; a result other than SKRY_PIX_INVALID is a format from the start index on that matches channel count and required bit depth, and no earlier one matches; SKRY_PIX_INVALID exactly when none matches |
| `PixelFormatResolver.MatchingFormatIsFirstMatch` | src/utils.cpp:140-151 | over all pixel formats: never PAL8; a non-INVALID result matches and is the first match in (SKRY_PIX_INVALID, r); INVALID exactly when no format matches |
| `PixelFormatResolver.FindMatchingFormat` | src/utils.cpp:140-151 | the loop with its early return yields exactly the first-match specification |
| `ImageSurface.ConvertImgToSurface` | src/utils.cpp:48-69 | null exactly when the image is not BGRA8 and its conversion fails; otherwise a fresh surface with the original image's width and height and the given stride, whose bytes are the BGRA8 image's rows laid out at `row * stride` |
| `ImageSurface.CopyRows` | src/utils.cpp:65-66 | the row loop turns a zero-filled buffer into `SurfaceBytes`: the first `stride` bytes of every row in order, then zeros |
| `ImageSurface.MemCopy` | src/utils.cpp:66 | `memcpy`: bytes `offset .. offset+n` become the first `n` source bytes; every other byte is unchanged |
| `ImageSurface.Surface.Create` | src/utils.cpp:64 | a fresh surface of the given width, height and stride, with a zero-filled buffer of `height * stride` bytes |
| `ImageSurface.RowMajor` | src/utils.cpp:65-66 | laying out `stride` bytes of each row gives exactly `rows * stride` bytes |
| `ImageSurface.RowMajorAt` | src/utils.cpp:65-66 | byte `k < stride` of row `row` lands at offset `row * stride + k`, inside the layout |
| `ImageSurface.SurfaceBytesAt` | src/utils.cpp:64-66 | in the finished surface, destination byte `row * stride + k` equals byte `k` of source row `row`, for every copied row and every `k < stride` |
| `ImageSurface.CopyStep` | src/utils.cpp:65-66 | copying row `row` into a buffer that holds the earlier rows followed by zeros gives the rows up to `row` followed by zeros |
| `ImageSurface.CopyStepFits` | src/utils.cpp:66 | the `stride` bytes written for row `row < height` lie inside a buffer of `height * stride` bytes |
| `OutputFormatCatalog.Describe` | src/utils.cpp:95-118 | the appended descriptor carries the reported id; a known format (BMP 8, TIFF 16, PNG 8) gets a non-empty name and a glob pattern matching its default extension; any other id keeps empty name, patterns and extension |
| `OutputFormatCatalog.DescriptorTable` | src/utils.cpp:99-118 | the three table entries: BMP gives `*.bmp` and `.bmp`, TIFF gives `*.tif`, `*.tiff` and `.tif`, PNG gives `*.png` and `.png`, with their names |
| `OutputFormatCatalog.DescribeAll` | src/utils.cpp:93-118 | one descriptor per reported id, entry `k` being the table's descriptor for id `k` |
| `OutputFormatCatalog.DescribeAllKeepsIds` | src/utils.cpp:91-97 | the appended descriptors carry the reported ids in the library's order, and have no duplicate id exactly when the library reported none |
| `OutputFormatCatalog.EnumerateTwiceDuplicates` | src/utils.cpp:93-95 | enumerating twice is not idempotent: the list differs from a single enumeration and lists the first reported format twice |
| `OutputFormatCatalog.LookupAfterEnumerate` | src/utils.cpp:153-161 | after enumerating into a list without a descriptor for a reported id, the lookup finds it and yields the table's descriptor for that id |
| `OutputFormatCatalog.FirstIndex` | src/utils.cpp:155-159 | when some descriptor has the id, the index of the first one that has it |
| `OutputFormatCatalog.Catalog.constructor` | src/utils.cpp:44 | the process-wide descriptor list starts empty |
| `OutputFormatCatalog.Catalog.EnumerateSupportedOutputFmts` | src/utils.cpp:88-120 | the new list is the old list with one table descriptor per reported id appended, in order; earlier entries are unchanged |
| `OutputFormatCatalog.Catalog.GetOutputFormatDescr` | src/utils.cpp:153-162 | the first descriptor whose id is the requested one; the `assert(0)` for an absent id is the precondition |
| `ErrorMessages.GetErrorMsg` | src/utils.cpp:185-222 | the message is never empty, and is "Unknown error" exactly for a code the table does not list |
| `ErrorMessages.MessageReadsBack` | src/utils.cpp:187-220 | each listed code's message reads back as that code; "Unknown error" reads back as no code |
| `ErrorMessages.FirstHalfReadsBack` | src/utils.cpp:189-203 | read-back for the codes from SKRY_SUCCESS to SKRY_TIFF_INCOMPLETE_FIELD |
| `ErrorMessages.SecondHalfReadsBack` | src/utils.cpp:204-220 | read-back for the remaining listed codes and for unlisted codes |
| `ErrorMessages.DistinctMessages` | src/utils.cpp:189-218 | two different listed codes never share a message |

## Left out

- `DrawAnchorPoint`, `SetColor`: Cairo drawing calls and floating-point geometry.
- `RestorePosSize`, `SavePosSize`: GTK window geometry.
- `LoadIconFromFile`: file-path building, file I/O and Glib exception handling.
- `SetBackgroundColor`: GTK CSS providers and style contexts.
- `SetAppLaunchPath`: a single assignment to a global string.
- `GetFilter`: a three-entry lookup into Cairo's filter enumeration.
- gettext translation (`_()`): messages are the untranslated message ids.
- The numeric values of libskry's enumerators: libskry's headers are not part of this model. `Skry` fixes placeholder values that are distinct, with SKRY_PIX_INVALID lowest. The tables are abstract, so the resolver's properties hold for all table contents.
- `libskry::c_Image::ConvertPixelFormat`: a function parameter. The model requires the converted image to have one line per row, at most as many rows as the original, and lines of at least `stride` bytes. It does not say how pixels are converted.
- ConvertImgToSurface: the source copies `stride` bytes from each source row, so every row must hold at least `stride` bytes. For packed BGRA8 rows this holds because Cairo's RGB24 stride is `width * 4`. The model states it as a precondition instead of deriving it from Cairo's stride rule.
- ConvertImgToSurface: a failure of `Cairo::ImageSurface::create` itself is not modelled, and neither is the reference counting of `Cairo::RefPtr`. The 32-bit unsigned arithmetic of `row * stride` is not modelled either: offsets are unbounded integers.
- ConvertImgToSurface: on failure the model says that the result is null. It cannot say that no Cairo object was created beyond the fact that nothing existing is modified.
- Catalog.GetOutputFormatDescr: in a build with assertions disabled, the source falls off the end of the function when the id is absent. The model makes presence a precondition and says nothing about that case.
- Concurrency: the source is single-threaded; unsynchronised access to the global list is not modelled.
