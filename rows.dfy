/**
 * Keeping a prefix of every fixed-size chunk of a byte buffer: the loop
 *   for chunk in bytes.chunks(stride) { out.extend_from_slice(&chunk[..keep]); }
 * that strips row padding after a GPU readback and crops image rows to a narrower width.
 */
module Rows {
  import opened Common

  /** Length of the last chunk `chunks(stride)` yields for `len > 0` bytes (it may be short). */
  function LastChunkLength(len: nat, stride: nat): nat
    requires stride > 0
    decreases len
  {
    if len <= stride then len else LastChunkLength(len - stride, stride)
  }

  /**
   * The loop runs without panicking: `chunks(0)` panics, and so does `&chunk[..keep]`
   * on any chunk (the last, possibly shorter one included) that holds fewer than `keep` bytes.
   */
  predicate PrefixesDefined(len: nat, keep: nat, stride: nat)
  {
    && stride > 0
    && (len >= stride ==> keep <= stride)
    && (len > 0 ==> keep <= LastChunkLength(len, stride))
  }

  lemma MulAtLeast(x: int, b: int)
    requires b > 0
    ensures x >= 1 ==> x * b >= b
  {
    if x >= 1 {
      assert x * b == (x - 1) * b + b;
      assert (x - 1) * b >= 0;
    }
  }

  /** Euclidean division has one quotient and one remainder. */
  lemma DivModUnique(a: int, b: int, q: int, r: int)
    requires b > 0 && a == q * b + r && 0 <= r < b
    ensures a % b == r && a / b == q
  {
    var q0, r0 := a / b, a % b;
    assert (q - q0) * b == r0 - r;
    MulAtLeast(q - q0, b);
    assert (q0 - q) * b == r - r0;
    MulAtLeast(q0 - q, b);
  }

  /** The last chunk is the remainder of the division, or a whole chunk when there is none. */
  lemma {:induction false} LastChunkLengthIsRemainder(len: nat, stride: nat)
    requires 0 < len && 0 < stride
    ensures LastChunkLength(len, stride) == if len % stride == 0 then stride else len % stride
    decreases len
  {
    if len > stride {
      LastChunkLengthIsRemainder(len - stride, stride);
      DivModUnique(len - stride, stride, len / stride - 1, len % stride);
    } else if len == stride {
      DivModUnique(len, stride, 1, 0);
    } else {
      DivModUnique(len, stride, 0, len);
    }
  }

  /** Number of chunks `chunks(stride)` yields for `len` bytes. */
  function NumChunks(len: nat, stride: nat): nat
    requires stride > 0
    decreases len
  {
    if len == 0 then 0 else if len <= stride then 1 else 1 + NumChunks(len - stride, stride)
  }

  /** The first `keep` bytes of every `stride`-byte chunk of `s`, concatenated. */
  function ChunkPrefixes(s: seq<Byte>, keep: nat, stride: nat): (r: seq<Byte>)
    requires PrefixesDefined(|s|, keep, stride)
    decreases |s|
  {
    if |s| == 0 then []
    else if |s| <= stride then s[..keep]
    else s[..keep] + ChunkPrefixes(s[stride..], keep, stride)
  }

  /** One turn of the loop: the chunk starting at `i` contributes its prefix, the rest follows. */
  lemma ChunkPrefixesStep(s: seq<Byte>, keep: nat, stride: nat, i: nat)
    requires i < |s| && PrefixesDefined(|s| - i, keep, stride)
    ensures var end := if i + stride <= |s| then i + stride else |s|;
      && keep <= end - i
      && PrefixesDefined(|s| - end, keep, stride)
      && ChunkPrefixes(s[i..], keep, stride) == s[i..end][..keep] + ChunkPrefixes(s[end..], keep, stride)
  {
    var end := if i + stride <= |s| then i + stride else |s|;
    var t := s[i..];
    if end < |s| {
      assert t[stride..] == s[end..];
      assert t[..keep] == s[i..end][..keep];
    } else {
      assert t == s[i..end];
      assert s[end..] == [];
    }
  }

  /** The output holds `keep` bytes per chunk. */
  lemma {:induction false} ChunkPrefixesLength(s: seq<Byte>, keep: nat, stride: nat)
    requires PrefixesDefined(|s|, keep, stride)
    ensures |ChunkPrefixes(s, keep, stride)| == NumChunks(|s|, stride) * keep
    decreases |s|
  {
    if |s| > stride {
      ChunkPrefixesLength(s[stride..], keep, stride);
    }
  }

  /** The loop itself, over a growing output vector. */
  method CollectChunkPrefixes(s: seq<Byte>, keep: nat, stride: nat) returns (r: seq<Byte>)
    requires PrefixesDefined(|s|, keep, stride)
    ensures r == ChunkPrefixes(s, keep, stride)
  {
    r := [];
    var i := 0;
    assert s[i..] == s;
    while i < |s|
      invariant i <= |s|
      invariant PrefixesDefined(|s| - i, keep, stride)
      invariant r + ChunkPrefixes(s[i..], keep, stride) == ChunkPrefixes(s, keep, stride)
      decreases |s| - i
    {
      var end := if i + stride <= |s| then i + stride else |s|;
      var chunk := s[i..end];
      ChunkPrefixesStep(s, keep, stride, i);
      r := r + chunk[..keep];
      i := end;
    }
  }

  /** A buffer of `rows` whole chunks has exactly `rows` chunks. */
  lemma {:induction false} NumChunksOfWholeRows(rows: nat, stride: nat)
    requires stride > 0
    ensures NumChunks(rows * stride, stride) == rows
  {
    if rows > 1 {
      MulPred(rows, stride);
      NumChunksOfWholeRows(rows - 1, stride);
    }
  }

  lemma MulPred(k: nat, x: nat)
    requires k > 0
    ensures k * x == (k - 1) * x + x
  {
  }

  /** Whole rows are always sliceable when the kept prefix fits in a row. */
  lemma {:induction false} WholeRowsDefined(rows: nat, keep: nat, stride: nat)
    requires 0 < stride && keep <= stride
    ensures PrefixesDefined(rows * stride, keep, stride)
    ensures rows > 0 ==> LastChunkLength(rows * stride, stride) == stride
  {
    if rows > 1 {
      MulPred(rows, stride);
      WholeRowsDefined(rows - 1, keep, stride);
    }
  }

  lemma SliceOfAppend(a: seq<Byte>, b: seq<Byte>, lo: nat, hi: nat)
    requires |a| <= lo <= hi <= |a| + |b|
    ensures (a + b)[lo..hi] == b[lo - |a| .. hi - |a|]
  {
  }

  lemma SliceOfDrop(s: seq<Byte>, d: nat, lo: nat, hi: nat)
    requires d + hi <= |s| && lo <= hi
    ensures s[d..][lo..hi] == s[d + lo .. d + hi]
  {
  }

  /** `k * x`, built by repeated addition so that the chunk lemmas stay linear. */
  function Offset(k: nat, x: nat): nat
  {
    if k == 0 then 0 else Offset(k - 1, x) + x
  }

  lemma {:induction false} OffsetIsProduct(k: nat, x: nat)
    ensures Offset(k, x) == k * x
  {
    if k > 0 {
      OffsetIsProduct(k - 1, x);
      MulPred(k, x);
    }
  }

  /** The first chunk's prefix heads the output, and the rest of the output is that of the rest of the input. */
  lemma ChunkPrefixesUnfold(s: seq<Byte>, keep: nat, stride: nat)
    requires PrefixesDefined(|s|, keep, stride) && |s| > stride
    ensures PrefixesDefined(|s| - stride, keep, stride)
    ensures NumChunks(|s|, stride) == 1 + NumChunks(|s| - stride, stride)
    ensures keep <= |s|
    ensures ChunkPrefixes(s, keep, stride) == s[..keep] + ChunkPrefixes(s[stride..], keep, stride)
  {
  }

  /** Chunk `k` of the output is the first `keep` bytes of chunk `k` of the input. */
  lemma {:induction false} ChunkPrefixAt(s: seq<Byte>, keep: nat, stride: nat, k: nat)
    requires PrefixesDefined(|s|, keep, stride)
    requires k < NumChunks(|s|, stride)
    ensures Offset(k, stride) + keep <= |s|
    ensures Offset(k, keep) + keep <= |ChunkPrefixes(s, keep, stride)|
    ensures ChunkPrefixes(s, keep, stride)[Offset(k, keep) .. Offset(k, keep) + keep]
         == s[Offset(k, stride) .. Offset(k, stride) + keep]
    decreases k
  {
    if k == 0 {
      assert ChunkPrefixes(s, keep, stride)[..keep] == s[..keep];
    } else {
      ChunkPrefixesUnfold(s, keep, stride);
      ChunkPrefixAt(s[stride..], keep, stride, k - 1);
      ChunkPrefixAtStep(s, keep, stride, k);
    }
  }

  /** Chunk `k` of `s` is chunk `k - 1` of `s[stride..]`, on both sides of the loop. */
  lemma ChunkPrefixAtStep(s: seq<Byte>, keep: nat, stride: nat, k: nat)
    requires 0 < k && keep <= stride < |s|
    requires PrefixesDefined(|s| - stride, keep, stride)
    requires ChunkPrefixes(s, keep, stride) == s[..keep] + ChunkPrefixes(s[stride..], keep, stride)
    requires Offset(k - 1, stride) + keep <= |s| - stride
    requires Offset(k - 1, keep) + keep <= |ChunkPrefixes(s[stride..], keep, stride)|
    requires ChunkPrefixes(s[stride..], keep, stride)[Offset(k - 1, keep) .. Offset(k - 1, keep) + keep]
          == s[stride..][Offset(k - 1, stride) .. Offset(k - 1, stride) + keep]
    ensures Offset(k, stride) + keep <= |s|
    ensures Offset(k, keep) + keep <= |ChunkPrefixes(s, keep, stride)|
    ensures ChunkPrefixes(s, keep, stride)[Offset(k, keep) .. Offset(k, keep) + keep]
         == s[Offset(k, stride) .. Offset(k, stride) + keep]
  {
    var rest := ChunkPrefixes(s[stride..], keep, stride);
    var i, o := Offset(k - 1, stride), Offset(k - 1, keep);
    SliceOfAppend(s[..keep], rest, o + keep, o + keep + keep);
    SliceOfDrop(s, stride, i, i + keep);
  }

  /** Keeping whole chunks changes nothing. */
  lemma {:induction false} ChunkPrefixesWhole(s: seq<Byte>, stride: nat)
    requires PrefixesDefined(|s|, stride, stride)
    ensures ChunkPrefixes(s, stride, stride) == s
    decreases |s|
  {
    if |s| > stride {
      ChunkPrefixesWhole(s[stride..], stride);
      assert s == s[..stride] + s[stride..];
    }
  }

  /**
   * Lays `rows` rows of `keep` bytes out at a pitch of `stride` bytes, filling the gap after
   * each row with `fill`: what a texture-to-buffer copy with a padded row pitch leaves in the buffer.
   */
  function PadRows(s: seq<Byte>, rows: nat, keep: nat, stride: nat, fill: Byte): (r: seq<Byte>)
    requires keep <= stride && |s| == rows * keep
    ensures |r| == rows * stride
    decreases rows
  {
    if rows == 0 then []
    else s[..keep] + seq(stride - keep, _ => fill) + PadRows(s[keep..], rows - 1, keep, stride, fill)
  }

  /** Stripping the padding recovers the rows that were laid out: the two are inverse. */
  lemma {:induction false} ChunkPrefixesOfPadRows(s: seq<Byte>, rows: nat, keep: nat, stride: nat, fill: Byte)
    requires 0 < stride && keep <= stride && |s| == rows * keep
    ensures PrefixesDefined(rows * stride, keep, stride)
    ensures ChunkPrefixes(PadRows(s, rows, keep, stride, fill), keep, stride) == s
    decreases rows
  {
    var p := PadRows(s, rows, keep, stride, fill);
    WholeRowsDefined(rows, keep, stride);
    if rows > 0 {
      var rest := PadRows(s[keep..], rows - 1, keep, stride, fill);
      assert p == s[..keep] + seq(stride - keep, _ => fill) + rest;
      ChunkPrefixesOfPadRows(s[keep..], rows - 1, keep, stride, fill);
      assert p[..keep] == s[..keep];
      if rows > 1 {
        assert p[stride..] == rest;
      } else {
        assert s[keep..] == [];
      }
      assert s == s[..keep] + s[keep..];
    }
  }

  /** For a buffer of whole rows: the output has `rows` rows, row `i` being the prefix of input row `i`. */
  lemma WholeRowsAt(s: seq<Byte>, rows: nat, keep: nat, stride: nat, i: nat)
    requires 0 < stride && keep <= stride && |s| == rows * stride && i < rows
    ensures PrefixesDefined(|s|, keep, stride)
    ensures |ChunkPrefixes(s, keep, stride)| == rows * keep
    ensures i * stride + keep <= |s|
    ensures i * keep + keep <= |ChunkPrefixes(s, keep, stride)|
    ensures ChunkPrefixes(s, keep, stride)[i * keep .. i * keep + keep] == s[i * stride .. i * stride + keep]
  {
    WholeRowsDefined(rows, keep, stride);
    NumChunksOfWholeRows(rows, stride);
    ChunkPrefixesLength(s, keep, stride);
    ChunkPrefixAt(s, keep, stride, i);
    OffsetIsProduct(i, stride);
    OffsetIsProduct(i, keep);
  }

  /** The de-padding step: rows are cut only when the padded and unpadded row sizes differ. */
  predicate DepadDefined(s: seq<Byte>, bytesPerRow: nat, paddedBytesPerRow: nat)
  {
    bytesPerRow == paddedBytesPerRow || PrefixesDefined(|s|, bytesPerRow, paddedBytesPerRow)
  }

  function Depad(s: seq<Byte>, bytesPerRow: nat, paddedBytesPerRow: nat): seq<Byte>
    requires DepadDefined(s, bytesPerRow, paddedBytesPerRow)
  {
    if bytesPerRow != paddedBytesPerRow then ChunkPrefixes(s, bytesPerRow, paddedBytesPerRow) else s
  }

  /** `if bytes_per_row != padded_bytes_per_row { ..; image_bytes = unpadded_bytes; }` */
  method DepadRows(s: seq<Byte>, bytesPerRow: nat, paddedBytesPerRow: nat) returns (r: seq<Byte>)
    requires DepadDefined(s, bytesPerRow, paddedBytesPerRow)
    ensures r == Depad(s, bytesPerRow, paddedBytesPerRow)
    ensures bytesPerRow == paddedBytesPerRow ==> r == s
  {
    r := s;
    if bytesPerRow != paddedBytesPerRow {
      r := CollectChunkPrefixes(s, bytesPerRow, paddedBytesPerRow);
    }
  }
}
