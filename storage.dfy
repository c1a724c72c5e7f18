/**
 * src/storage.rs: `save_image`, the error-returning variant of the write path, and its
 * `save_buffer` helper. Directory creation and the encoder are inputs (their results).
 */
module Storage {
  import opened Common
  import Naming
  import Rows
  import Encoding

  /** An `std::io::Error` from `create_dir_all`; its contents play no part. */
  datatype IoError = IoError

  /** `ImageStorageError`: the three ways `save_image` fails. */
  datatype ImageStorageError =
    | CreateDir(io: IoError)
    | SaveImageBuffer(image: Encoding.ImageError)
    | BufferCreation

  /**
   * `save_buffer`: `BufferCreation` when `from_raw` rejects the bytes, otherwise the
   * encoder's error (converted by `?`) or success.
   */
  function SaveBuffer(p: Encoding.PixelLayout, bytes: seq<Byte>, width: u32, height: u32, path: string,
                      saved: Encoding.SaveResult): (r: Result<(), ImageStorageError>)
    requires Encoding.CastDefined(p, |bytes|)
    ensures r == Err(BufferCreation) <==> !Encoding.FromRawFits(width, height, Encoding.SubpixelCount(p, |bytes|))
    ensures Encoding.FromRawFits(width, height, Encoding.SubpixelCount(p, |bytes|)) ==>
      (r.Ok? <==> saved.Ok?) && (saved.Err? ==> r == Err(SaveImageBuffer(saved.error)))
  {
    if !Encoding.FromRawFits(width, height, Encoding.SubpixelCount(p, |bytes|)) then Err(BufferCreation)
    else if saved.Err? then Err(SaveImageBuffer(saved.error))
    else Ok(())
  }

  /** The arguments of `save_image`. */
  datatype SaveRequest = SaveRequest(
    outputDir: string, extension: string, imageBytes: seq<Byte>,
    bytesPerRow: nat, paddedBytesPerRow: nat, width: u32, height: u32, frameId: u64)

  /** The path `save_image` writes: `{output_dir}/{frame_id:05}.{extension}`. */
  function RequestPath(q: SaveRequest): string
  {
    Naming.FramePath(q.outputDir, q.frameId, q.extension)
  }

  /**
   * Once the directory exists, `save_image` does not panic: de-padding finds every chunk
   * long enough, and the bytes are a whole number of floats when the extension is `"exr"`.
   */
  predicate SaveImageDefined(q: SaveRequest)
  {
    && Rows.DepadDefined(q.imageBytes, q.bytesPerRow, q.paddedBytesPerRow)
    && Encoding.CastDefined(Encoding.PixelLayoutFor(q.extension),
                            |Rows.Depad(q.imageBytes, q.bytesPerRow, q.paddedBytesPerRow)|)
  }

  /**
   * `save_image`. Directory creation comes first and its failure ends the call; then the
   * padding is stripped, the path built and the buffer saved with the pixel type the
   * extension selects. Returns the error, and the image handed to the encoder if any.
   */
  method SaveImage(q: SaveRequest, dirCreated: Result<(), IoError>, saved: Encoding.SaveResult)
      returns (r: Result<(), ImageStorageError>, encoded: Option<Encoding.EncodeCall>)
    requires dirCreated.Ok? ==> SaveImageDefined(q)
    ensures dirCreated.Err? ==> r == Err(CreateDir(dirCreated.error)) && encoded == None
    ensures dirCreated.Ok? ==>
      var p := Encoding.PixelLayoutFor(q.extension);
      var bytes := Rows.Depad(q.imageBytes, q.bytesPerRow, q.paddedBytesPerRow);
      && r == SaveBuffer(p, bytes, q.width, q.height, RequestPath(q), saved)
      && encoded == Encoding.EncoderInput(p, bytes, q.width, q.height, RequestPath(q))
    ensures r.Ok? <==> dirCreated.Ok? && encoded.Some? && saved.Ok?
  {
    if dirCreated.Err? {
      return Err(CreateDir(dirCreated.error)), None;
    }
    var bytes := Rows.DepadRows(q.imageBytes, q.bytesPerRow, q.paddedBytesPerRow);
    var path := Naming.FramePath(q.outputDir, q.frameId, q.extension);
    var p := Encoding.PixelLayoutFor(q.extension);
    encoded := Encoding.EncoderInput(p, bytes, q.width, q.height, path);
    r := SaveBuffer(p, bytes, q.width, q.height, path, saved);
  }

  /** The error reports the first step that failed: directory, then buffer, then encoder. */
  lemma SaveImageErrorOrder(q: SaveRequest, dirCreated: Result<(), IoError>, saved: Encoding.SaveResult,
                            r: Result<(), ImageStorageError>)
    requires dirCreated.Ok? ==> SaveImageDefined(q)
    requires dirCreated.Err? ==> r == Err(CreateDir(dirCreated.error))
    requires dirCreated.Ok? ==>
      r == SaveBuffer(Encoding.PixelLayoutFor(q.extension), Rows.Depad(q.imageBytes, q.bytesPerRow, q.paddedBytesPerRow),
                      q.width, q.height, RequestPath(q), saved)
    ensures r.Err? && r.error.CreateDir? <==> dirCreated.Err?
    ensures r.Err? && r.error.SaveImageBuffer? ==> dirCreated.Ok? && saved.Err? && r.error.image == saved.error
    ensures r == Err(BufferCreation) ==> dirCreated.Ok?
  {
  }

  /**
   * For a buffer of whole padded rows, the bytes `save_image` encodes hold one row of
   * `bytes_per_row` bytes per padded row, row `i` being the start of padded row `i`;
   * with equal row sizes the bytes are passed on unchanged.
   */
  lemma SaveImageRows(q: SaveRequest, rows: nat, i: nat)
    requires 0 < q.paddedBytesPerRow && q.bytesPerRow <= q.paddedBytesPerRow
    requires |q.imageBytes| == rows * q.paddedBytesPerRow && i < rows
    ensures Rows.DepadDefined(q.imageBytes, q.bytesPerRow, q.paddedBytesPerRow)
    ensures var bytes := Rows.Depad(q.imageBytes, q.bytesPerRow, q.paddedBytesPerRow);
      && |bytes| == rows * q.bytesPerRow
      && i * q.bytesPerRow + q.bytesPerRow <= |bytes|
      && i * q.paddedBytesPerRow + q.bytesPerRow <= |q.imageBytes|
      && bytes[i * q.bytesPerRow .. i * q.bytesPerRow + q.bytesPerRow]
         == q.imageBytes[i * q.paddedBytesPerRow .. i * q.paddedBytesPerRow + q.bytesPerRow]
    ensures q.bytesPerRow == q.paddedBytesPerRow ==> Rows.Depad(q.imageBytes, q.bytesPerRow, q.paddedBytesPerRow) == q.imageBytes
  {
    Rows.WholeRowsAt(q.imageBytes, rows, q.bytesPerRow, q.paddedBytesPerRow, i);
  }
}
