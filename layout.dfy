/**
 * Row-layout arithmetic of the readback buffer: `prepare_asset` in src/plugin.rs and the
 * alignment helper of the render device it calls.
 */
module Layout {
  import opened Common
  import Rows

  /** wgpu's `COPY_BYTES_PER_ROW_ALIGNMENT`: the row pitch of a texture-to-buffer copy. */
  const COPY_BYTES_PER_ROW_ALIGNMENT: nat := 256

  /**
   * Bevy's `RenderDevice::align_copy_bytes_per_row`: the padding added is the distance to the
   * next multiple of the alignment.
   */
  function AlignCopyBytesPerRow(rowBytes: nat): (r: nat)
    ensures r >= rowBytes
    ensures r % COPY_BYTES_PER_ROW_ALIGNMENT == 0
    ensures r < rowBytes + COPY_BYTES_PER_ROW_ALIGNMENT
  {
    var padding := (COPY_BYTES_PER_ROW_ALIGNMENT - rowBytes % COPY_BYTES_PER_ROW_ALIGNMENT) % COPY_BYTES_PER_ROW_ALIGNMENT;
    rowBytes + padding
  }

  /** The aligned pitch is the least multiple of the alignment that holds the row. */
  lemma AlignIsLeast(rowBytes: nat, m: nat)
    requires m >= rowBytes && m % COPY_BYTES_PER_ROW_ALIGNMENT == 0
    ensures AlignCopyBytesPerRow(rowBytes) <= m
  {
    var a := AlignCopyBytesPerRow(rowBytes);
    var qa: int, qm: int := a / 256, m / 256;
    assert a == 256 * qa && m == 256 * qm;
    assert 256 * qm > 256 * qa - 256;
    assert qm > qa - 1;
  }

  /** Padding is added exactly when the row is not already aligned. */
  lemma AlignFixesOnlyAligned(rowBytes: nat)
    ensures AlignCopyBytesPerRow(rowBytes) == rowBytes <==> rowBytes % COPY_BYTES_PER_ROW_ALIGNMENT == 0
  {
  }

  /** Block size of a texture format; `block_copy_size(None)` is absent for combined depth-stencil formats. */
  datatype TextureFormat = TextureFormat(blockWidth: nat, blockCopySize: Option<nat>)

  const RGBA8_UNORM_SRGB := TextureFormat(1, Some(4))
  const BGRA8_UNORM_SRGB := TextureFormat(1, Some(4))
  const RGBA32_FLOAT := TextureFormat(1, Some(16))

  datatype Extent3d = Extent3d(width: u32, height: u32)

  /** What `prepare_asset` stores next to the readback buffer, with the buffer's byte size. */
  datatype ExportLayout = ExportLayout(bytesPerRow: u32, paddedBytesPerRow: u32, bufferSize: u64, sourceSize: Extent3d)

  function UnpaddedBytesPerRow(size: Extent3d, format: TextureFormat): nat
    requires format.blockWidth > 0 && format.blockCopySize.Some?
  {
    (size.width / format.blockWidth) * format.blockCopySize.value
  }

  /**
   * `prepare_asset` runs to the end: the `unwrap` on the copy size succeeds and neither u32
   * product overflows (the row size, and height times padded row size).
   */
  predicate LayoutComputable(size: Extent3d, format: TextureFormat)
  {
    && format.blockWidth > 0
    && format.blockCopySize.Some?
    && UnpaddedBytesPerRow(size, format) < U32_LIMIT
    && size.height * TruncateU32(AlignCopyBytesPerRow(UnpaddedBytesPerRow(size, format))) < U32_LIMIT
  }

  /** The layout `prepare_asset` computes for a texture of `size` in `format`. */
  function PrepareLayout(size: Extent3d, format: TextureFormat): (l: ExportLayout)
    requires LayoutComputable(size, format)
    ensures l.sourceSize == size
    ensures l.bytesPerRow == (size.width / format.blockWidth) * format.blockCopySize.value
    ensures l.bufferSize == size.height * l.paddedBytesPerRow
    ensures l.bytesPerRow + COPY_BYTES_PER_ROW_ALIGNMENT <= U32_LIMIT ==>
      && l.paddedBytesPerRow >= l.bytesPerRow
      && l.paddedBytesPerRow % COPY_BYTES_PER_ROW_ALIGNMENT == 0
      && (l.paddedBytesPerRow == l.bytesPerRow <==> l.bytesPerRow % COPY_BYTES_PER_ROW_ALIGNMENT == 0)
  {
    var bytesPerRow := UnpaddedBytesPerRow(size, format);
    var padded := TruncateU32(AlignCopyBytesPerRow(bytesPerRow));
    AlignFixesOnlyAligned(bytesPerRow);
    ExportLayout(bytesPerRow, padded, size.height * padded, size)
  }

  /**
   * A copy of `height` rows at the padded pitch, whose last row holds `bytesPerRow` bytes,
   * stays inside the buffer `prepare_asset` allocates.
   */
  lemma PaddedCopyFitsBuffer(size: Extent3d, format: TextureFormat)
    requires LayoutComputable(size, format) && size.height > 0
    requires UnpaddedBytesPerRow(size, format) + COPY_BYTES_PER_ROW_ALIGNMENT <= U32_LIMIT
    ensures var l := PrepareLayout(size, format);
      (size.height - 1) * l.paddedBytesPerRow + l.bytesPerRow <= l.bufferSize
  {
    var l := PrepareLayout(size, format);
    assert l.bufferSize == (size.height - 1) * l.paddedBytesPerRow + l.paddedBytesPerRow;
  }

  /** Whenever its rows are not empty and fit in u32 with room to align, the layout can be de-padded. */
  lemma PreparedLayoutIsDepaddable(size: Extent3d, format: TextureFormat)
    requires LayoutComputable(size, format)
    requires 0 < UnpaddedBytesPerRow(size, format)
    requires UnpaddedBytesPerRow(size, format) + COPY_BYTES_PER_ROW_ALIGNMENT <= U32_LIMIT
    ensures Depaddable(PrepareLayout(size, format))
  {
  }

  /** The row sizes `save_buffer_to_disk` relies on when it strips the padding. */
  predicate Depaddable(l: ExportLayout)
  {
    && 0 < l.bytesPerRow <= l.paddedBytesPerRow
    && l.bufferSize == l.sourceSize.height * l.paddedBytesPerRow
  }

  /** De-padding a full readback is well defined and leaves `height` rows of `bytesPerRow` bytes. */
  lemma DepadReadbackLength(l: ExportLayout, readback: seq<Byte>)
    requires Depaddable(l)
    requires |readback| == l.bufferSize
    ensures Rows.PrefixesDefined(|readback|, l.bytesPerRow, l.paddedBytesPerRow)
    ensures |Rows.ChunkPrefixes(readback, l.bytesPerRow, l.paddedBytesPerRow)| == l.sourceSize.height * l.bytesPerRow
  {
    Rows.WholeRowsDefined(l.sourceSize.height, l.bytesPerRow, l.paddedBytesPerRow);
    Rows.NumChunksOfWholeRows(l.sourceSize.height, l.paddedBytesPerRow);
    Rows.ChunkPrefixesLength(readback, l.bytesPerRow, l.paddedBytesPerRow);
  }

  /**
   * De-padding a full readback is well defined and leaves exactly `height` unpadded rows,
   * row `i` being the first `bytesPerRow` bytes of padded row `i`.
   */
  lemma DepadReadback(l: ExportLayout, readback: seq<Byte>, i: nat)
    requires Depaddable(l)
    requires |readback| == l.bufferSize
    requires i < l.sourceSize.height
    ensures Rows.PrefixesDefined(|readback|, l.bytesPerRow, l.paddedBytesPerRow)
    ensures |Rows.ChunkPrefixes(readback, l.bytesPerRow, l.paddedBytesPerRow)| == l.sourceSize.height * l.bytesPerRow
    ensures i * l.paddedBytesPerRow + l.bytesPerRow <= |readback|
    ensures i * l.bytesPerRow + l.bytesPerRow <= |Rows.ChunkPrefixes(readback, l.bytesPerRow, l.paddedBytesPerRow)|
    ensures Rows.ChunkPrefixes(readback, l.bytesPerRow, l.paddedBytesPerRow)[i * l.bytesPerRow .. i * l.bytesPerRow + l.bytesPerRow]
         == readback[i * l.paddedBytesPerRow .. i * l.paddedBytesPerRow + l.bytesPerRow]
  {
    Rows.WholeRowsAt(readback, l.sourceSize.height, l.bytesPerRow, l.paddedBytesPerRow, i);
  }

  /** Widths whose row size leaves no room to align cannot reach the u32 truncation. */
  lemma AlignStaysInU32(rowBytes: nat)
    requires rowBytes + COPY_BYTES_PER_ROW_ALIGNMENT <= U32_LIMIT
    ensures TruncateU32(AlignCopyBytesPerRow(rowBytes)) == AlignCopyBytesPerRow(rowBytes)
  {
  }
}
