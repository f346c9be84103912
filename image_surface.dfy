/**
  `Utils::ConvertImgToSurface`: turns a libskry image into a Cairo RGB24
  image surface, whose bytes are laid out as SKRY_PIX_BGRA8, copying the
  image row by row so that the surface's stride may exceed a row's length.
 */
module ImageSurface {
  import opened Skry

  type Byte = bv8

  /**
    A libskry image (`libskry::c_Image`): its width, height, pixel format and,
    for each row, the bytes `GetLine(row)` points at.
   */
  datatype Image = Image(width: nat, height: nat, format: PixelFormat, lines: seq<seq<Byte>>)
  {
    /** There is one line per row. */
    predicate Valid() {
      |lines| == height
    }
  }

  /** `libskry::c_Image::ConvertPixelFormat`; `None` is the empty image it returns on failure. */
  type Converter = (Image, PixelFormat) -> Option<Image>

  /**
    The BGRA8 image the rows are copied from: `img` itself when it is already
    in that format, otherwise its conversion, which may fail.
   */
  function BgraSource(img: Image, convert: Converter): Option<Image> {
    if img.format != PixBgra8 then convert(img, PixBgra8) else Some(img)
  }

  /** Every line of `src` holds at least `n` bytes. */
  predicate LinesCover(lines: seq<seq<Byte>>, n: nat) {
    forall r :: 0 <= r < |lines| ==> |lines[r]| >= n
  }

  /**
    Copying `stride` bytes from each row of `src` stays inside the rows and
    inside a surface `height` rows tall.
   */
  predicate FitsSurface(src: Image, height: nat, stride: nat) {
    src.Valid() && src.height <= height && LinesCover(src.lines, stride)
  }

  /** The first `stride` bytes of each line, one line after another. */
  function RowMajor(lines: seq<seq<Byte>>, stride: nat): (bytes: seq<Byte>)
    requires LinesCover(lines, stride)
    ensures |bytes| == |lines| * stride
  {
    if lines == [] then []
    else
      var n := |lines| - 1;
      assert (n + 1) * stride == n * stride + stride;
      RowMajor(lines[..n], stride) + lines[n][..stride]
  }

  /** Byte `k` of row `row` sits at offset `row * stride + k`. */
  lemma {:induction false} RowMajorAt(lines: seq<seq<Byte>>, stride: nat, row: nat, k: nat)
    requires LinesCover(lines, stride)
    requires row < |lines| && k < stride
    ensures row * stride + k < |RowMajor(lines, stride)|
    ensures RowMajor(lines, stride)[row * stride + k] == lines[row][k]
  {
    var n := |lines| - 1;
    if row < n {
      RowMajorAt(lines[..n], stride, row, k);
    }
  }

  function Zeros(n: nat): (z: seq<Byte>)
    ensures |z| == n && forall i :: 0 <= i < n ==> z[i] == 0
  {
    seq(n, _ => 0)
  }

  /**
    The bytes of a surface `height` rows tall once the rows of `src` are
    copied in: the copied rows, then the untouched zero-filled rows.
   */
  function SurfaceBytes(src: Image, height: nat, stride: nat): seq<Byte>
    requires FitsSurface(src, height, stride)
  {
    RowMajor(src.lines, stride) + Zeros((height - src.height) * stride)
  }

  /**
    In a surface holding `src`, byte `k` of row `row` of `src` sits at offset
    `row * stride + k`.
   */
  lemma SurfaceBytesAt(src: Image, height: nat, stride: nat, row: nat, k: nat)
    requires FitsSurface(src, height, stride)
    requires row < src.height && k < stride
    ensures row * stride + k < |SurfaceBytes(src, height, stride)|
    ensures SurfaceBytes(src, height, stride)[row * stride + k] == src.lines[row][k]
  {
    RowMajorAt(src.lines, stride, row, k);
  }

  /** A Cairo image surface in FORMAT_RGB24: four bytes per pixel, `stride` bytes per row. */
  class Surface {
    const width: nat
    const height: nat
    const stride: nat
    const data: array<Byte>

    predicate Valid() {
      stride >= width * 4 && data.Length == height * stride
    }

    /** `Cairo::ImageSurface::create`, with the stride Cairo picks; the pixels start out zero. */
    constructor Create(width: nat, height: nat, stride: nat)
      requires stride >= width * 4
      ensures Valid()
      ensures this.width == width && this.height == height && this.stride == stride
      ensures fresh(data) && data[..] == Zeros(height * stride)
    {
      this.width := width;
      this.height := height;
      this.stride := stride;
      data := new Byte[height * stride](_ => 0);
    }
  }

  /** Row `row` of a surface `height` rows tall lies inside its buffer. */
  lemma CopyStepFits(lines: seq<seq<Byte>>, stride: nat, row: nat, height: nat)
    requires row < height
    ensures row * stride + stride <= height * stride
    ensures (height - row) * stride == stride + (height - row - 1) * stride
  {
    assert (row + 1) * stride <= height * stride by {
      MulMonotone(row + 1, height, stride);
    }
  }

  lemma MulMonotone(a: nat, b: nat, c: nat)
    requires a <= b
    ensures a * c <= b * c
  {
  }

  /**
    Copying row `row` into a buffer that holds the rows before it followed by
    zeros gives the rows up to and including `row`, followed by zeros.
   */
  lemma CopyStep(lines: seq<seq<Byte>>, stride: nat, row: nat, height: nat, before: seq<Byte>, after: seq<Byte>)
    requires LinesCover(lines, stride) && row < |lines| && row < height
    requires before == RowMajor(lines[..row], stride) + Zeros((height - row) * stride)
    requires row * stride + stride <= |before|
    requires after == before[..row * stride] + lines[row][..stride] + before[row * stride + stride..]
    ensures after == RowMajor(lines[..row + 1], stride) + Zeros((height - row - 1) * stride)
  {
    assert lines[..row + 1][..row] == lines[..row];
    CopyStepFits(lines, stride, row, height);
    assert before[..row * stride] == RowMajor(lines[..row], stride);
    assert before[row * stride + stride..] == Zeros((height - row - 1) * stride);
  }

  /** `memcpy(dst + offset, src, n)`. */
  method MemCopy(dst: array<Byte>, offset: nat, src: seq<Byte>, n: nat)
    requires offset + n <= dst.Length && n <= |src|
    modifies dst
    ensures dst[..] == old(dst[..offset]) + src[..n] + old(dst[offset + n..])
  {
    forall k | 0 <= k < n {
      dst[offset + k] := src[k];
    }
  }

  /**
    The `for (row ...)` loop: copies `stride` bytes of each row of `src` to
    offset `row * stride` of the zero-filled surface buffer `data`.
   */
  method CopyRows(data: array<Byte>, src: Image, height: nat, stride: nat)
    requires FitsSurface(src, height, stride)
    requires data[..] == Zeros(height * stride)
    modifies data
    ensures data[..] == SurfaceBytes(src, height, stride)
  {
    var row := 0;
    assert src.lines[..row] == [];
    while row < src.height
      invariant row <= src.height
      invariant data[..] == RowMajor(src.lines[..row], stride) + Zeros((height - row) * stride)
    {
      ghost var before := data[..];
      CopyStepFits(src.lines, stride, row, height);
      MemCopy(data, row * stride, src.lines[row], stride);
      CopyStep(src.lines, stride, row, height, before, data[..]);
      row := row + 1;
    }
    assert src.lines[..row] == src.lines;
  }

  /**
    `ConvertImgToSurface`, with the stride Cairo picks for the surface as an
    input. It fails, returning null and allocating nothing, exactly when the
    image is not BGRA8 and its conversion fails. Otherwise the surface has the
    width and height of `img`, and its bytes are `SurfaceBytes` of the BGRA8
    image: by `SurfaceBytesAt`, row `row` holds the first `stride` bytes of
    row `row` of that image.
   */
  method ConvertImgToSurface(img: Image, convert: Converter, stride: nat) returns (surface: Surface?)
    requires img.Valid()
    requires stride >= img.width * 4
    requires BgraSource(img, convert).Some? ==> FitsSurface(BgraSource(img, convert).value, img.height, stride)
    ensures surface == null <==> img.format != PixBgra8 && convert(img, PixBgra8).None?
    ensures surface != null ==>
      && fresh(surface) && fresh(surface.data) && surface.Valid()
      && surface.width == img.width && surface.height == img.height && surface.stride == stride
      && surface.data[..] == SurfaceBytes(BgraSource(img, convert).value, img.height, stride)
  {
    var src: Image;
    if img.format != PixBgra8 {
      var converted := convert(img, PixBgra8);
      if converted.None? {
        return null;
      }
      src := converted.value;
    } else {
      src := img;
    }
    assert src == BgraSource(img, convert).value;
    assert FitsSurface(src, img.height, stride);

    surface := new Surface.Create(img.width, img.height, stride);
    CopyRows(surface.data, src, img.height, stride);
  }
}
