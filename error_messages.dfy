/**
  `Utils::GetErrorMsg`: the message shown for a libskry result code. Messages
  are the untranslated message ids; gettext is not part of this model.
 */
module ErrorMessages {
  import opened Skry

  /** `SKRY_result`: the codes the message table lists, and any other value. */
  datatype SkryResult =
    | Success
    | InvalidParameters
    | LastStep
    | NoMoreImages
    | NoPalette
    | CannotOpenFile
    | BmpMalformedFile
    | UnsupportedBmpFile
    | UnsupportedFileFormat
    | OutOfMemory
    | CannotCreateFile
    | TiffIncompleteHeader
    | TiffUnknownVersion
    | TiffNumDirEntrTagIncomplete
    | TiffIncompleteField
    | TiffDiffChannelBitDepths
    | TiffCompressed
    | TiffUnsupportedPlanarConfig
    | UnsupportedPixelFormat
    | TiffIncompletePixelData
    | AviMalformedFile
    | AviUnsupportedFormat
    | InvalidImgDimensions
    | SerMalformedFile
    | SerUnsupportedFormat
    | LibavNoVidStream
    | LibavUnsupportedFormat
    | LibavDecodingError
    | LibavInternalError
    | Unlisted(code: int)

  const UnknownError: string := "Unknown error"

  /**
    The message for `code`: never empty, and "Unknown error" exactly for the
    codes the table does not list.
   */
  function GetErrorMsg(code: SkryResult): (msg: string)
    ensures |msg| > 0
    ensures msg == UnknownError <==> code.Unlisted?
  {
    match code
    case Success => "Success"
    case InvalidParameters => "Invalid parameters"
    case LastStep => "Last step"
    case NoMoreImages => "No more images"
    case NoPalette => "No palette"
    case CannotOpenFile => "Cannot open file"
    case BmpMalformedFile => "Malformed BMP file"
    case UnsupportedBmpFile => "Unsupported BMP file"
    case UnsupportedFileFormat => "Unsupported file format"
    case OutOfMemory => "Out of memory"
    case CannotCreateFile => "Cannot create file"
    case TiffIncompleteHeader => "Incomplete TIFF header"
    case TiffUnknownVersion => "Unknown TIFF version"
    case TiffNumDirEntrTagIncomplete => "Incomplete TIFF tag: number of directory entries"
    case TiffIncompleteField => "Incomplete TIFF field"
    case TiffDiffChannelBitDepths => "Channels have different bit depths"
    case TiffCompressed => "TIFF compression is not supported"
    case TiffUnsupportedPlanarConfig => "Unsupported TIFF planar configuration"
    case UnsupportedPixelFormat => "Unsupported pixel format"
    case TiffIncompletePixelData => "Incomplete TIFF pixel data"
    case AviMalformedFile => "Malformed AVI file"
    case AviUnsupportedFormat => "Unsupported AVI video format"
    case InvalidImgDimensions => "Invalid image dimensions"
    case SerMalformedFile => "Malformed SER file"
    case SerUnsupportedFormat => "Unsupported SER format"
    case LibavNoVidStream => "Video stream not found"
    case LibavUnsupportedFormat => "Unsupported format"
    case LibavDecodingError => "Decoding error"
    case LibavInternalError => "Internal libav error"
    case Unlisted(_) => UnknownError
  }

  /**
    The listed code a message was produced for, read back from the message
    (looked up by length first); `None` for "Unknown error" and for text the
    table never produces.
   */
  function CodeOfMessage(msg: string): Option<SkryResult> {
    if |msg| == 7 then
      if msg == "Success" then Some(Success) else None
    else if |msg| == 9 then
      if msg == "Last step" then Some(LastStep) else None
    else if |msg| == 10 then
      if msg == "No palette" then Some(NoPalette) else None
    else if |msg| == 13 then
      if msg == "Out of memory" then Some(OutOfMemory) else None
    else if |msg| == 14 then
      if msg == "No more images" then Some(NoMoreImages)
      else if msg == "Decoding error" then Some(LibavDecodingError)
      else None
    else if |msg| == 16 then
      if msg == "Cannot open file" then Some(CannotOpenFile) else None
    else if |msg| == 18 then
      if msg == "Invalid parameters" then Some(InvalidParameters)
      else if msg == "Malformed BMP file" then Some(BmpMalformedFile)
      else if msg == "Cannot create file" then Some(CannotCreateFile)
      else if msg == "Malformed AVI file" then Some(AviMalformedFile)
      else if msg == "Malformed SER file" then Some(SerMalformedFile)
      else if msg == "Unsupported format" then Some(LibavUnsupportedFormat)
      else None
    else if |msg| == 20 then
      if msg == "Unsupported BMP file" then Some(UnsupportedBmpFile)
      else if msg == "Unknown TIFF version" then Some(TiffUnknownVersion)
      else if msg == "Internal libav error" then Some(LibavInternalError)
      else None
    else if |msg| == 21 then
      if msg == "Incomplete TIFF field" then Some(TiffIncompleteField) else None
    else if |msg| == 22 then
      if msg == "Incomplete TIFF header" then Some(TiffIncompleteHeader)
      else if msg == "Unsupported SER format" then Some(SerUnsupportedFormat)
      else if msg == "Video stream not found" then Some(LibavNoVidStream)
      else None
    else if |msg| == 23 then
      if msg == "Unsupported file format" then Some(UnsupportedFileFormat) else None
    else if |msg| == 24 then
      if msg == "Unsupported pixel format" then Some(UnsupportedPixelFormat)
      else if msg == "Invalid image dimensions" then Some(InvalidImgDimensions)
      else None
    else if |msg| == 26 then
      if msg == "Incomplete TIFF pixel data" then Some(TiffIncompletePixelData) else None
    else if |msg| == 28 then
      if msg == "Unsupported AVI video format" then Some(AviUnsupportedFormat) else None
    else if |msg| == 33 then
      if msg == "TIFF compression is not supported" then Some(TiffCompressed) else None
    else if |msg| == 34 then
      if msg == "Channels have different bit depths" then Some(TiffDiffChannelBitDepths) else None
    else if |msg| == 37 then
      if msg == "Unsupported TIFF planar configuration" then Some(TiffUnsupportedPlanarConfig) else None
    else if |msg| == 48 then
      if msg == "Incomplete TIFF tag: number of directory entries" then Some(TiffNumDirEntrTagIncomplete) else None
    else None
  }

  /** The codes listed in the first half of the message table. */
  predicate InFirstHalf(code: SkryResult) {
    match code
    case Success | InvalidParameters | LastStep | NoMoreImages | NoPalette => true
    case CannotOpenFile | BmpMalformedFile | UnsupportedBmpFile | UnsupportedFileFormat | OutOfMemory => true
    case CannotCreateFile | TiffIncompleteHeader | TiffUnknownVersion | TiffNumDirEntrTagIncomplete | TiffIncompleteField => true
    case _ => false
  }

  /** Every listed code's message reads back as that code; "Unknown error" reads back as none. */
  lemma MessageReadsBack(code: SkryResult)
    ensures CodeOfMessage(GetErrorMsg(code)) == if code.Unlisted? then None else Some(code)
  {
    if InFirstHalf(code) {
      FirstHalfReadsBack(code);
    } else {
      SecondHalfReadsBack(code);
    }
  }

  lemma FirstHalfReadsBack(code: SkryResult)
    requires InFirstHalf(code)
    ensures CodeOfMessage(GetErrorMsg(code)) == Some(code)
  {
    match code
    case Success =>
    case InvalidParameters =>
    case LastStep =>
    case NoMoreImages =>
    case NoPalette =>
    case CannotOpenFile =>
    case BmpMalformedFile =>
    case UnsupportedBmpFile =>
    case UnsupportedFileFormat =>
    case OutOfMemory =>
    case CannotCreateFile =>
    case TiffIncompleteHeader =>
    case TiffUnknownVersion =>
    case TiffNumDirEntrTagIncomplete =>
    case TiffIncompleteField =>
  }

  lemma SecondHalfReadsBack(code: SkryResult)
    requires !InFirstHalf(code)
    ensures CodeOfMessage(GetErrorMsg(code)) == if code.Unlisted? then None else Some(code)
  {
    match code
    case TiffDiffChannelBitDepths =>
    case TiffCompressed =>
    case TiffUnsupportedPlanarConfig =>
    case UnsupportedPixelFormat =>
    case TiffIncompletePixelData =>
    case AviMalformedFile =>
    case AviUnsupportedFormat =>
    case InvalidImgDimensions =>
    case SerMalformedFile =>
    case SerUnsupportedFormat =>
    case LibavNoVidStream =>
    case LibavUnsupportedFormat =>
    case LibavDecodingError =>
    case LibavInternalError =>
    case Unlisted(_) =>
  }

  /** Two different listed codes never share a message. */
  lemma DistinctMessages(a: SkryResult, b: SkryResult)
    requires !a.Unlisted? && !b.Unlisted? && a != b
    ensures GetErrorMsg(a) != GetErrorMsg(b)
  {
    MessageReadsBack(a);
    MessageReadsBack(b);
  }
}
