/**
  The parts of the libskry image-stacking library that Stackistry's utility
  functions consult: the pixel-format and output-format enumerators they name,
  and the static tables that describe each pixel format.

  libskry's headers are not part of this model, so the numeric values of its
  enumerators are placeholders. The model relies only on them being distinct,
  and on SKRY_PIX_INVALID being the first pixel format (the format scan starts
  right after it). The tables are left abstract: every property proved about
  them holds for all table contents.
 */
module Skry {

  datatype Option<+T> = None | Some(value: T)

  /** An enumerator of `SKRY_pixel_format`. */
  type PixelFormat = int

  const PixInvalid: PixelFormat := 0  // SKRY_PIX_INVALID
  const PixPal8: PixelFormat := 1     // SKRY_PIX_PAL8, palette indices
  const PixBgra8: PixelFormat := 4    // SKRY_PIX_BGRA8, the layout of a display surface

  /** An enumerator of `SKRY_output_format`. */
  type OutputFormat = nat

  const Bmp8: OutputFormat := 0       // SKRY_BMP_8
  const Png8: OutputFormat := 1       // SKRY_PNG_8
  const Tiff16: OutputFormat := 2     // SKRY_TIFF_16

  /**
    libskry's static tables, indexed by pixel format (`numChannels`,
    `bitsPerChannel`, both `SKRY_NUM_PIX_FORMATS` long) and by output format
    (`outputFmtBitsPerChannel`).
   */
  datatype FormatTables = FormatTables(
    numChannels: seq<nat>,             // NUM_CHANNELS
    bitsPerChannel: seq<nat>,          // BITS_PER_CHANNEL
    outputFmtBitsPerChannel: seq<nat>) // OUTPUT_FMT_BITS_PER_CHANNEL
  {
    /** Both pixel-format tables cover the same enumerators. */
    predicate Valid() {
      |numChannels| == |bitsPerChannel|
    }

    /** `SKRY_NUM_PIX_FORMATS` */
    function NumPixFormats(): nat {
      |numChannels|
    }
  }
}
