/** Machine integers, wrappers and panic sites shared by every module of the model. */
module Common {

  /** One byte of pixel data (Rust `u8`). */
  type Byte = b: int | 0 <= b < 0x100

  const U32_LIMIT: nat := 0x1_0000_0000
  const U64_LIMIT: nat := 0x1_0000_0000_0000_0000
  /** `usize` on the 64-bit targets the plugin runs on. */
  const USIZE_LIMIT: nat := 0x1_0000_0000_0000_0000

  type u32 = x: int | 0 <= x < 0x1_0000_0000
  type u64 = x: int | 0 <= x < 0x1_0000_0000_0000_0000

  /** Rust's `u32::wrapping_add(1)`. */
  function WrappingInc32(x: u32): (r: u32)
    ensures x + 1 < U32_LIMIT ==> r == x + 1
    ensures x + 1 == U32_LIMIT ==> r == 0
  {
    (x + 1) % U32_LIMIT
  }

  /** Rust's `u64::wrapping_add(1)`. */
  function WrappingInc64(x: u64): (r: u64)
    ensures x + 1 < U64_LIMIT ==> r == x + 1
    ensures x + 1 == U64_LIMIT ==> r == 0
  {
    (x + 1) % U64_LIMIT
  }

  /** Rust's `as u32` cast of a `usize`: keeps the low 32 bits. */
  function TruncateU32(x: nat): (r: u32)
    ensures x < U32_LIMIT ==> r == x
  {
    x % U32_LIMIT
  }

  /** Bevy's `UVec2`: a size in pixels. */
  datatype UVec2 = UVec2(x: u32, y: u32)

  datatype Option<T> = None | Some(value: T)

  datatype Result<T, E> = Ok(value: T) | Err(error: E)

  /** The places where a background write thread can panic. */
  datatype PanicSite =
    | ChunkSlice        // `&chunk[..n]` on a chunk shorter than `n`, or `chunks(0)`
    | DirCreation       // `expect`/`panic!` after `create_dir_all` failed
    | CastSlice         // `bytemuck::cast_slice` to `f32` on a length that is not a multiple of 4
    | FromRawUnwrap     // `ImageBuffer::from_raw(..).unwrap()` on a too short buffer
    | SaveUnwrap        // `buffer.save(..).unwrap()` on an encoder error
}
