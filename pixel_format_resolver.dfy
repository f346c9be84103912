/**
  `Utils::FindMatchingFormat`: the first libskry pixel format, other than the
  palette format, whose channel count and bit depth suit an output format.
 */
module PixelFormatResolver {
  import opened Skry

  /**
    Pixel format `i` lies strictly between SKRY_PIX_INVALID and
    SKRY_NUM_PIX_FORMATS, is not the palette format, has `numChannels`
    channels and the bit depth that `outputFmt` requires.
   */
  predicate IsMatch(t: FormatTables, outputFmt: OutputFormat, numChannels: nat, i: int) {
    && PixInvalid < i < t.NumPixFormats()
    && i < |t.bitsPerChannel|
    && outputFmt < |t.outputFmtBitsPerChannel|
    && i != PixPal8
    && t.numChannels[i] == numChannels
    && t.outputFmtBitsPerChannel[outputFmt] == t.bitsPerChannel[i]
  }

  /** The first match at or after `i`, or SKRY_PIX_INVALID when there is none. */
  function FirstMatchFrom(t: FormatTables, outputFmt: OutputFormat, numChannels: nat, i: int): (r: PixelFormat)
    requires PixInvalid < i
    ensures r != PixPal8
    ensures r != PixInvalid ==>
      i <= r && IsMatch(t, outputFmt, numChannels, r) &&
      forall j :: i <= j < r ==> !IsMatch(t, outputFmt, numChannels, j)
    ensures r == PixInvalid <==> forall j :: i <= j ==> !IsMatch(t, outputFmt, numChannels, j)
    decreases t.NumPixFormats() - i
  {
    if i >= t.NumPixFormats() then PixInvalid
    else if IsMatch(t, outputFmt, numChannels, i) then i
    else FirstMatchFrom(t, outputFmt, numChannels, i + 1)
  }

  /** The pixel format the scan over all enumerators settles on. */
  function MatchingFormat(t: FormatTables, outputFmt: OutputFormat, numChannels: nat): PixelFormat {
    FirstMatchFrom(t, outputFmt, numChannels, PixInvalid + 1)
  }

  /**
    The result is never the palette format; any other result than
    SKRY_PIX_INVALID matches and no earlier format does; SKRY_PIX_INVALID comes
    back exactly when no format matches.
   */
  lemma MatchingFormatIsFirstMatch(t: FormatTables, outputFmt: OutputFormat, numChannels: nat)
    ensures var r := MatchingFormat(t, outputFmt, numChannels);
      && r != PixPal8
      && (r != PixInvalid ==>
            IsMatch(t, outputFmt, numChannels, r) &&
            forall j :: PixInvalid < j < r ==> !IsMatch(t, outputFmt, numChannels, j))
      && (r == PixInvalid <==> forall j :: !IsMatch(t, outputFmt, numChannels, j))
  {
    var r := MatchingFormat(t, outputFmt, numChannels);
    if r == PixInvalid {
      forall j ensures !IsMatch(t, outputFmt, numChannels, j) {
        if PixInvalid < j {
          assert PixInvalid + 1 <= j;
        }
      }
    }
  }

  /** The format scan of `FindMatchingFormat`, with its early return. */
  method FindMatchingFormat(t: FormatTables, outputFmt: OutputFormat, numChannels: nat) returns (r: PixelFormat)
    requires t.Valid()
    requires outputFmt < |t.outputFmtBitsPerChannel|
    ensures r == MatchingFormat(t, outputFmt, numChannels)
  {
    var i := PixInvalid + 1;
    while i < t.NumPixFormats()
      invariant PixInvalid < i
      invariant MatchingFormat(t, outputFmt, numChannels) == FirstMatchFrom(t, outputFmt, numChannels, i)
    {
      if i != PixPal8
        && t.numChannels[i] == numChannels
        && t.outputFmtBitsPerChannel[outputFmt] == t.bitsPerChannel[i]
      {
        return i;
      }
      i := i + 1;
    }
    return PixInvalid;
  }
}
