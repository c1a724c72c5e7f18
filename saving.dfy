/**
 * src/saving.rs: `crop_image_width`, which narrows every RGBA row of a buffer in place,
 * and `save_image_file`, the panicking write path of a `SaveImageDescriptor`.
 */
module Saving {
  import opened Common
  import Naming
  import Rows
  import Encoding

  /** `ColorType::Rgba8.bytes_per_pixel()`. */
  const BYTES_PER_PIXEL: nat := 4

  /** The `Vec<u8>` that `crop_image_width` overwrites through its `&mut` argument. */
  class ByteVec {
    var data: seq<Byte>

    constructor (data: seq<Byte>)
      ensures this.data == data
    {
      this.data := data;
    }
  }

  /** `crop_image_width` panics unless every row chunk, the last one too, holds the kept prefix. */
  predicate CropDefined(data: seq<Byte>, resolution: UVec2, targetWidth: u32)
  {
    Rows.PrefixesDefined(|data|, BYTES_PER_PIXEL * targetWidth, BYTES_PER_PIXEL * resolution.x)
  }

  /** The cropped buffer: the first `target_width` pixels of every row of `resolution.x` pixels. */
  function Cropped(data: seq<Byte>, resolution: UVec2, targetWidth: u32): seq<Byte>
    requires CropDefined(data, resolution, targetWidth)
  {
    Rows.ChunkPrefixes(data, BYTES_PER_PIXEL * targetWidth, BYTES_PER_PIXEL * resolution.x)
  }

  /** Fills a new vector with the kept prefix of every row, then replaces the caller's data with it. */
  method CropImageWidth(v: ByteVec, resolution: UVec2, targetWidth: u32)
    requires CropDefined(v.data, resolution, targetWidth)
    modifies v
    ensures v.data == Cropped(old(v.data), resolution, targetWidth)
  {
    var corrected := Rows.CollectChunkPrefixes(v.data, BYTES_PER_PIXEL * targetWidth, BYTES_PER_PIXEL * resolution.x);
    v.data := corrected;
  }

  /**
   * For a buffer of `rows` whole rows and a target no wider than the source: the crop is
   * defined, keeps `rows` rows of `4 * target_width` bytes, and row `i` is the start of source row `i`.
   */
  lemma CropRows(data: seq<Byte>, resolution: UVec2, targetWidth: u32, rows: nat, i: nat)
    requires 0 < resolution.x && targetWidth <= resolution.x
    requires |data| == rows * (BYTES_PER_PIXEL * resolution.x) && i < rows
    ensures CropDefined(data, resolution, targetWidth)
    ensures var c := Cropped(data, resolution, targetWidth);
      var w, src := BYTES_PER_PIXEL * targetWidth, BYTES_PER_PIXEL * resolution.x;
      && |c| == rows * w
      && i * w + w <= |c|
      && i * src + w <= |data|
      && c[i * w .. i * w + w] == data[i * src .. i * src + w]
  {
    Rows.WholeRowsAt(data, rows, BYTES_PER_PIXEL * targetWidth, BYTES_PER_PIXEL * resolution.x, i);
  }

  /** Cropping to the full width changes nothing. */
  lemma CropFullWidth(data: seq<Byte>, resolution: UVec2)
    requires CropDefined(data, resolution, resolution.x)
    ensures Cropped(data, resolution, resolution.x) == data
  {
    Rows.ChunkPrefixesWhole(data, BYTES_PER_PIXEL * resolution.x);
  }

  /** `SaveImageDescriptor`. */
  datatype SaveImageDescriptor = SaveImageDescriptor(
    data: seq<Byte>, resolution: UVec2, frameId: u32, outputDir: string, extension: string)

  /** How `save_image_file` ends: a panic, or the encoded image and what was printed. */
  datatype SaveFileOutcome =
    | Panicked(site: PanicSite)
    | Finished(encoded: Encoding.EncodeCall, printed: Option<string>)

  function UnsupportedFormatMessage(hint: string): string
  {
    "image format " + hint + " is not supported"
  }

  /**
   * `save_image_file`: the directory `expect` comes first, then the path, then the
   * `from_raw(..).unwrap()` of an 8-bit RGBA buffer; a save that fails with an unsupported
   * format is printed and every other save error is dropped.
   */
  function SaveImageFile(desc: SaveImageDescriptor, dirCreated: bool, saved: Encoding.SaveResult): (o: SaveFileOutcome)
    ensures !dirCreated ==> o == Panicked(DirCreation)
    ensures o == Panicked(FromRawUnwrap) <==>
      dirCreated && !Encoding.FromRawFits(desc.resolution.x, desc.resolution.y, |desc.data|)
    ensures o.Finished? <==> dirCreated && Encoding.FromRawFits(desc.resolution.x, desc.resolution.y, |desc.data|)
    ensures o.Finished? ==>
      && o.encoded == Encoding.EncodeCall(Naming.FramePath(desc.outputDir, desc.frameId, desc.extension),
                                          Encoding.RgbaU8, desc.resolution.x, desc.resolution.y, desc.data)
      && (o.printed.Some? <==> Encoding.UnsupportedFormatHint(saved).Some?)
      && (o.printed.Some? ==> o.printed.value == UnsupportedFormatMessage(Encoding.UnsupportedFormatHint(saved).value))
  {
    if !dirCreated then Panicked(DirCreation)
    else
      var path := Naming.FramePath(desc.outputDir, desc.frameId, desc.extension);
      var call := Encoding.EncoderInput(Encoding.RgbaU8, desc.data, desc.resolution.x, desc.resolution.y, path);
      if call.None? then Panicked(FromRawUnwrap)
      else
        var hint := Encoding.UnsupportedFormatHint(saved);
        Finished(call.value, if hint.Some? then Some(UnsupportedFormatMessage(hint.value)) else None)
  }

  /** Any save error other than an unsupported format leaves no trace. */
  lemma OtherSaveErrorsIgnored(desc: SaveImageDescriptor, e: Encoding.ImageError)
    requires !(e.Unsupported? && e.kind.Format?)
    ensures SaveImageFile(desc, true, Err(e)) == SaveImageFile(desc, true, Ok(()))
  {
  }
}
