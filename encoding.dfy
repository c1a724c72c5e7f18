/**
 * What the write paths hand to the `image` crate: the pixel type chosen from the file
 * extension, the `bytemuck::cast_slice` to `f32` that the HDR path needs, the length check of
 * `ImageBuffer::from_raw`, and the shape of the errors `ImageBuffer::save` reports.
 * The encoder itself is foreign: its result is an input of every model that calls it.
 */
module Encoding {
  import opened Common

  /** `Rgba<u8>` (one byte per channel) or `Rgba<f32>` (four bytes per channel). */
  datatype PixelLayout = RgbaU8 | RgbaF32

  /** Four channels per pixel for both layouts. */
  const CHANNEL_COUNT: nat := 4

  /** The `match` on the extension: `"exr"` is written as 32-bit float RGBA, everything else as 8-bit RGBA. */
  function PixelLayoutFor(extension: string): (p: PixelLayout)
    ensures p == RgbaF32 <==> extension == "exr"
    ensures p == RgbaU8 <==> extension != "exr"
  {
    if extension == "exr" then RgbaF32 else RgbaU8
  }

  /** Bytes per subpixel (`P::Subpixel`). */
  function SubpixelBytes(p: PixelLayout): (n: nat)
    ensures n == 1 || n == 4
    ensures n == 4 <==> p == RgbaF32
  {
    match p
    case RgbaU8 => 1
    case RgbaF32 => 4
  }

  /**
   * `bytemuck::cast_slice::<u8, f32>` panics when the byte length is not a whole number of
   * floats; the `u8` path passes the bytes through unchanged.
   */
  predicate CastDefined(p: PixelLayout, byteLen: nat)
  {
    p == RgbaU8 || byteLen % 4 == 0
  }

  /** Length of the subpixel slice the bytes are viewed as. */
  function SubpixelCount(p: PixelLayout, byteLen: nat): (n: nat)
    requires CastDefined(p, byteLen)
    ensures n * SubpixelBytes(p) == byteLen
  {
    byteLen / SubpixelBytes(p)
  }

  /**
   * `ImageBuffer::from_raw(width, height, buf)` returns `Some` exactly when
   * `CHANNEL_COUNT * width * height`, computed with checked `usize` multiplication,
   * does not overflow and is at most the length of `buf` (counted in subpixels).
   * The first product cannot overflow for a `u32` width on a 64-bit target.
   */
  predicate FromRawFits(width: u32, height: u32, subpixels: nat)
    ensures width == 0 || height == 0 ==> FromRawFits(width, height, subpixels)
    ensures FromRawFits(width, height, subpixels) && width > 0 && height > 0 ==> subpixels >= CHANNEL_COUNT
  {
    var needed := CHANNEL_COUNT * width * height;
    needed < USIZE_LIMIT && needed <= subpixels
  }

  /** In bytes: an 8-bit image needs 4 bytes per pixel, a float image 16 bytes per pixel. */
  lemma FromRawFitsBytes(p: PixelLayout, width: u32, height: u32, byteLen: nat)
    requires CastDefined(p, byteLen)
    requires CHANNEL_COUNT * width * height < USIZE_LIMIT
    ensures FromRawFits(width, height, SubpixelCount(p, byteLen))
        <==> CHANNEL_COUNT * width * height * SubpixelBytes(p) <= byteLen
  {
    var needed := CHANNEL_COUNT * width * height;
    var n := SubpixelCount(p, byteLen);
    if p == RgbaF32 {
      assert byteLen == n * 4;
      assert needed <= n <==> needed * 4 <= n * 4;
    }
  }

  /** Bytes holding exactly `width * height` RGBA pixels are what `from_raw` takes. */
  lemma WholePixelsFit(p: PixelLayout, width: u32, height: u32, byteLen: nat)
    requires byteLen == (CHANNEL_COUNT * width * height) * SubpixelBytes(p)
    requires CHANNEL_COUNT * width * height < USIZE_LIMIT
    ensures CastDefined(p, byteLen)
    ensures SubpixelCount(p, byteLen) == CHANNEL_COUNT * width * height
    ensures FromRawFits(width, height, SubpixelCount(p, byteLen))
  {
    var pixels := CHANNEL_COUNT * width * height;
    if p == RgbaF32 {
      assert byteLen == pixels * 4;
      assert byteLen % 4 == 0 && byteLen / 4 == pixels;
    }
  }

  /** What `UnsupportedError::kind()` reports. */
  datatype UnsupportedKind = Format(hint: string) | OtherUnsupported

  /** The `ImageError` variants the write paths tell apart. */
  datatype ImageError = Unsupported(kind: UnsupportedKind) | OtherImageError

  /** The outcome of `ImageBuffer::save`, an input of the model. */
  type SaveResult = Result<(), ImageError>

  /** The format hint of a save that failed because the encoder does not support the format. */
  function UnsupportedFormatHint(saved: SaveResult): (hint: Option<string>)
    ensures hint.Some? <==> saved.Err? && saved.error.Unsupported? && saved.error.kind.Format?
    ensures hint.Some? ==> saved == Err(Unsupported(Format(hint.value)))
  {
    match saved
    case Err(Unsupported(Format(h))) => Some(h)
    case _ => None
  }

  /** An image handed to the encoder: the file path and the pixel buffer `from_raw` built. */
  datatype EncodeCall = EncodeCall(path: string, layout: PixelLayout, width: u32, height: u32, bytes: seq<Byte>)

  /** The image the encoder is asked to write, if `from_raw` accepts the bytes. */
  function EncoderInput(p: PixelLayout, bytes: seq<Byte>, width: u32, height: u32, path: string): (call: Option<EncodeCall>)
    requires CastDefined(p, |bytes|)
    ensures call.Some? <==> FromRawFits(width, height, SubpixelCount(p, |bytes|))
    ensures call.Some? ==> call.value == EncodeCall(path, p, width, height, bytes)
  {
    if FromRawFits(width, height, SubpixelCount(p, |bytes|)) then Some(EncodeCall(path, p, width, height, bytes)) else None
  }
}
