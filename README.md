# bevy_image_export in Dafny

A model of the byte-level and counting logic of `bevy_image_export`, the Bevy plugin that
copies rendered frames back from the GPU and writes them to disk as an image sequence.
The model covers:

- the row layout of the readback buffer: unpadded and padded bytes per row and the buffer
  size. The older camera exporter's copy pitch and task buffer are covered too.
- the loop that strips row padding from a readback, and the width crop;
- the in-place BGRA to RGBA swap;
- the `{dir}/{frame:05}.{ext}` naming, and the extension dispatch between 8-bit and float RGBA;
- the error handling of the three write paths;
- the per-tick frame counters, the start frame of each exporter and the grace-period counter;
- the write counter that `finish` waits on;
- the image comparison and frame logic of the integration test.

Each source file becomes one module. `Common` holds the machine integers (`u32`, `u64`, `usize`
limits, explicit wrap-around), `Option`/`Result` and the panic sites. The shared pieces are:

- `Naming`: `{:05}` and paths.
- `Rows`: the "first `keep` bytes of every `stride`-byte chunk" loop. The two de-padding loops
  and the crop all use it.
- `Layout`: Bevy's `RenderDevice::align_copy_bytes_per_row`, which pads a row to wgpu's
  256-byte `COPY_BYTES_PER_ROW_ALIGNMENT`, and `prepare_asset`.
- `Encoding`: the pixel type, `cast_slice` and the `from_raw` length check, and the encoder's
  errors.
- `Threads`: the `ExportThreads` counter.

Code that changes state in place is modelled as classes and methods:

- `Local` counters;
- the counter, the start-frame map and the camera components;
- the byte vector that `crop_image_width` overwrites;
- the array that `bgra_to_rgba` swaps.

Each method is proved against a specification function, and lemmas state the properties of
those functions.

Things outside the program are inputs. For the GPU readback, that is the bytes the mapped buffer
holds. For directory creation and `ImageBuffer::save`, it is their success or error. A panic
inside a write thread is an explicit outcome (`Panicked(site)`), because it decides whether the
thread's decrement of the write counter runs. A panic in straight-line code outside a thread is a
precondition.

## Model

| member | source | states |
|---|---|---|
| Common.WrappingInc32 | src/node.rs:18 | `wrapping_add(1)` on `u32`: the successor below 2^32, and 0 after the maximum |
| Common.WrappingInc64 | src/plugin.rs:138 | `wrapping_add(1)` on `u64`: the successor below 2^64, and 0 after the maximum |
| Layout.AlignCopyBytesPerRow | src/plugin.rs:77-78 | the padded row size is at least the row size, is a multiple of 256, and is less than the row size plus 256 |
| Layout.AlignIsLeast | src/plugin.rs:77-78 | no multiple of 256 that is at least the row size is smaller than the padded row size |
| Layout.AlignFixesOnlyAligned | src/plugin.rs:77-78 | padding leaves the row size unchanged exactly when it is already a multiple of 256 |
| Layout.PrepareLayout | src/plugin.rs:73-92 | `bytes_per_row` is `(width / block_width) * block_copy_size`; the buffer holds exactly `height * padded_bytes_per_row` bytes; the padded row is at least the row and aligned to 256 |
| Layout.PaddedCopyFitsBuffer | src/plugin.rs:75-85 | a copy of `height` rows at the padded pitch fits the buffer `prepare_asset` creates |
| Layout.DepadReadback | src/plugin.rs:202-211 | for a full readback of a prepared layout, de-padding yields `height * bytes_per_row` bytes, and row `i` is bytes `[i*padded, i*padded + bytes_per_row)` of the readback |
| Layout.AlignStaysInU32 | src/plugin.rs:77-78 | the `as u32` cast of the padded row size changes nothing while the row size is 256 or more below 2^32 |
| Rows.LastChunkLengthIsRemainder | src/plugin.rs:206 | the last chunk of `chunks(stride)` has `len % stride` bytes, or `stride` bytes when that remainder is 0 |
| Rows.ChunkPrefixesLength | src/plugin.rs:203-208 | the output holds `keep` bytes for each chunk |
| Rows.CollectChunkPrefixes | src/storage.rs:48-52 | the `extend_from_slice` loop over `chunks(stride)` builds exactly the concatenated chunk prefixes |
| Rows.ChunkPrefixAt | src/storage.rs:50-51 | output row `k` is the first `keep` bytes of input chunk `k` |
| Rows.WholeRowsAt | src/storage.rs:47-55 | for `rows * stride` bytes, the output has `rows * keep` bytes and row `i` equals input `[i*stride, i*stride + keep)` |
| Rows.ChunkPrefixesWhole | src/storage.rs:47 | keeping whole chunks returns the input unchanged |
| Rows.ChunkPrefixesOfPadRows | src/plugin.rs:202-211 | padding each row and then stripping the padding returns the original rows |
| Rows.DepadRows | src/storage.rs:47-55 | the reassigned `image_bytes` is the de-padded sequence, and it is the input unchanged when the two row sizes are equal |
| Naming.Pad5 | src/plugin.rs:213-216 | `{:05}` yields only digits |
| Naming.Pad5RoundTrip | src/plugin.rs:213-216 | the decimal value of `{:05}` of `n` is `n` |
| Naming.Pad5Shape | src/storage.rs:57 | `{:05}` is the decimal digits left-padded with zeros to at least 5 characters and never cut short |
| Naming.Pad5NeverTruncates | src/saving.rs:15-18 | a six-digit frame id is written in full |
| Naming.Pad5Injective | src/storage.rs:57 | distinct frame ids give distinct `{:05}` strings |
| Naming.FramePath | src/plugin.rs:213-216 | the path is the directory, `/`, the zero-padded frame id, `.` and the extension, each at its position |
| Naming.FramePathRoundTrip | src/plugin.rs:213-216 | the frame id can be read back from `{dir}/{id:05}.{ext}` |
| Naming.FramePathInjective | src/storage.rs:57 | two frames of one exporter never share a file |
| Encoding.PixelLayoutFor | src/plugin.rs:247-258 | `"exr"` selects float RGBA, and every other extension selects 8-bit RGBA |
| Encoding.SubpixelCount | src/plugin.rs:250 | the bytes viewed as subpixels cover the whole byte length |
| Encoding.FromRawFits | src/storage.rs:25-27 | an empty image always fits; a non-empty one needs at least one pixel's subpixels |
| Encoding.FromRawFitsBytes | src/storage.rs:25-27 | `from_raw` accepts the buffer exactly when it has at least `4 * width * height` subpixels, measured in bytes |
| Encoding.WholePixelsFit | src/storage.rs:59-69 | bytes holding exactly `width * height` pixels cast cleanly and are accepted by `from_raw` |
| Encoding.UnsupportedFormatHint | src/plugin.rs:235-238 | a hint exists exactly for an `Unsupported` error of kind `Format` |
| Encoding.EncoderInput | src/storage.rs:25-29 | the encoder receives the path, pixel type, size and bytes exactly when `from_raw` accepts them |
| Threads.ExportThreads.constructor | src/plugin.rs:150-153 | the counter starts at 0 |
| Threads.ExportThreads.Spawn | src/plugin.rs:200 | the counter goes up by one for every spawned write |
| Threads.ExportThreads.Complete | src/plugin.rs:260 | a write that reaches its end lowers the counter by one |
| Threads.ExportThreads.Abandon | src/plugin.rs:218-219 | a write that panics leaves its increment in place |
| Threads.ExportThreads.Finish | src/plugin.rs:157-161 | `finish` returns only with the counter at 0 and no write still running |
| Threads.ExportThreads.Sleep | src/plugin.rs:159 | while a write is running, one sleep sees the counter drop, and a leaked increment stays |
| Threads.Replay | src/plugin.rs:157-161 | after any feasible run of spawns, completions and panics the counter is at least the number of panicked writes; once a write has panicked the counter stays above 0 |
| Threads.LeakBlocksFinish | src/plugin.rs:157-161 | a counter holding a panicked write's increment is above 0, so `finish` cannot return |
| Plugin.DefaultSettings | src/plugin.rs:104-110 | the defaults are `"out"` and `"png"` |
| Plugin.OutputPath | src/plugin.rs:213-216 | the file name encodes the frame id recoverably |
| Plugin.DefaultFirstFrame | src/plugin.rs:104-110 | with default settings the first frame is `out/00001.png`, written as 8-bit RGBA |
| Plugin.ExporterRegistry.constructor | src/plugin.rs:136 | the tick starts at 0 and there are no start frames |
| Plugin.ExporterRegistry.AddExporter | src/plugin.rs:134 | a spawned exporter joins the query without a start frame and the tick is unchanged |
| Plugin.ExporterRegistry.SetupExporters | src/plugin.rs:133-144 | the tick advances by one (wrapping); exporters without a start frame get the new tick; existing start frames are never overwritten |
| Plugin.FileFrameId | src/plugin.rs:194 | the frame id is at least 1, and it is 1 exactly on the start tick |
| Plugin.FileFrameIdAdvances | src/plugin.rs:171-194 | each later tick raises the frame id by one |
| Plugin.JobFor | src/plugin.rs:193-198 | a write carries the exporter's settings, its readback and layout, and the frame id `tick - start + 1` |
| Plugin.Prepared | src/plugin.rs:172-173 | the bundles kept are exactly those whose source is prepared, and all of them when every source is prepared |
| Plugin.JobsFor | src/plugin.rs:172-173 | one write per prepared bundle, in query order: write `j` is the job for prepared bundle `j` |
| Plugin.JobsForStep | src/plugin.rs:172-201 | the writes of a query are those of its first bundle, if prepared, followed by those of the rest |
| Plugin.BufferSaver.constructor | src/plugin.rs:164-169 | the `Local` tick starts at 0 and the saver shares the given counter |
| Plugin.BufferSaver.SpawnWrite | src/plugin.rs:172-201 | a bundle with a prepared source spawns exactly its job and raises the counter by one; one without spawns nothing |
| Plugin.BufferSaver.SaveConsecutive | src/plugin.rs:169-194 | an exporter saved on `n + 1` consecutive ticks from its start frame writes frame `n + 1` last, and the counter rises by `n + 1` |
| Plugin.BufferSaver.SaveBufferToDisk | src/plugin.rs:164-201 | the tick advances by one, the spawned writes are exactly the jobs for the prepared sources, and the counter rises by their number |
| Plugin.WriteTask | src/plugin.rs:201-261 | the thread panics exactly when a chunk is too short, the directory is missing, or the `exr` bytes are not whole floats; whenever it returns, the encoder was called with `EncoderInput` for the extension's pixel type, the de-padded bytes, the source size and `{dir}/{id:05}.{ext}`; a buffer-creation failure or an unsupported format is printed and never propagated |
| Plugin.RunWriteTask | src/plugin.rs:201-261 | the thread's outcome is `WriteTask`'s; the counter is decremented exactly when the thread does not panic |
| Plugin.ReadbackDepads | src/plugin.rs:202-211 | a full readback de-pads without a panic to `height * bytes_per_row` bytes, and it is untouched when there is no padding |
| Plugin.MatchingReadbackIsEncoded | src/plugin.rs:202-258 | a full readback of an RGBA8 (png) or RGBA32F (exr) texture reaches the encoder and is never a buffer-creation failure |
| Storage.SaveBuffer | src/storage.rs:15-32 | `BufferCreation` exactly when `from_raw` fails; otherwise success exactly when the save succeeds, and an encoder error becomes `SaveImageBuffer` |
| Storage.SaveImage | src/storage.rs:35-74 | a directory failure is returned as `CreateDir` and nothing is encoded; otherwise the result is `save_buffer` on the de-padded bytes at `{dir}/{id:05}.{ext}`; `Ok` exactly when directory creation, buffer creation and the save all succeed |
| Storage.SaveImageErrorOrder | src/storage.rs:45-73 | `CreateDir` exactly when the directory failed; a `SaveImageBuffer` error carries the encoder's error; `BufferCreation` occurs only after the directory exists |
| Storage.SaveImageRows | src/storage.rs:47-55 | for whole padded rows, row `i` of the encoded bytes is the start of padded row `i`, and the bytes are unchanged when there is no padding |
| Saving.ByteVec.constructor | src/saving.rs:34 | the vector holds the given bytes |
| Saving.CropImageWidth | src/saving.rs:34-44 | `*data` is replaced by the first `4 * target_width` bytes of each `4 * res.x` chunk; nothing else changes |
| Saving.CropRows | src/saving.rs:39-40 | for data of `rows * 4 * res.x` bytes, the crop has `rows * 4 * target_width` bytes, and row `i` is the start of source row `i` |
| Saving.CropFullWidth | src/saving.rs:39-43 | cropping to the full width leaves the data unchanged |
| Saving.SaveImageFile | src/saving.rs:12-32 | a missing directory panics first; a `from_raw` failure panics; the call finishes exactly when the directory exists and `from_raw` accepts the data; otherwise the 8-bit buffer is saved at `{dir}/{id:05}.{ext}`, and only an unsupported-format error is printed |
| Saving.OtherSaveErrorsIgnored | src/saving.rs:24-31 | every other save error has the same effect as success |
| Ecs.SwapIndex | src/ecs.rs:150-158 | the swapped position stays inside the buffer |
| Ecs.SwapRedBlue | src/ecs.rs:149-160 | the swap keeps the length |
| Ecs.SwapRedBlueAt | src/ecs.rs:150-158 | byte `i` of the result is the byte at the swapped position |
| Ecs.SwapRedBluePixel | src/ecs.rs:151-158 | in every complete 4-byte group, bytes 0 and 2 are exchanged and bytes 1 and 3 are kept |
| Ecs.SwapRedBlueTail | src/ecs.rs:150 | bytes after the last complete group are untouched |
| Ecs.SwapRedBlueInvolution | src/ecs.rs:149-160 | swapping twice restores the original |
| Ecs.BgraToRgba | src/ecs.rs:149-160 | the array is swapped in place to the specified result |
| Ecs.NewTask | src/ecs.rs:20-32 | the task's buffer holds exactly `4 * x * y` bytes for its target and size |
| Ecs.TaskBufferFitsFromRaw | src/ecs.rs:136-137 | a full readback of a task's buffer is accepted by `from_raw` after the swap |
| Ecs.CameraWorld.AttachTask | src/ecs.rs:68-74 | adds one image, points the camera at it, and attaches a task of the camera's size |
| Ecs.CameraWorld.VisitCamera | src/ecs.rs:41-74 | one iteration: a camera with a task is skipped; one without gets image number `len(images)` of its size, is redirected to it and gets a task over it |
| Ecs.CameraWorld.SetupExportData | src/ecs.rs:35-76 | only cameras without a task change: each gets a new image of its physical size as target and a task over it; exactly one image is added per such camera, and no two of them share an image; existing tasks and the targets of other cameras are kept |
| Ecs.ImageExporter.constructor | src/ecs.rs:90 | the frame counter starts at 0 |
| Ecs.ImageExporter.ExportImage | src/ecs.rs:87-133 | the frame counter advances by one (wrapping at 2^32); there is one write per task, every write gets the same frame id, and the counter rises by the number of tasks |
| Ecs.EcsSaveImageFile | src/ecs.rs:135-147 | the image is saved exactly when `from_raw`, the directory and the save all succeed; it is always 8-bit RGBA at `out/{id:05}.png` with the swapped bytes |
| Ecs.RunEcsWriteTask | src/ecs.rs:126-129 | the outcome is `save_image_file`'s; the counter is decremented exactly when it returns |
| Node.ZeroWidthPanics | src/node.rs:51-57 | a zero width makes the pitch 0, so the `NonZeroU32` unwrap panics |
| Node.RawPitch | src/node.rs:51-57 | a zero width gives pitch 0; otherwise, without `u32` overflow, the pitch is 4 times the aligned width, at least `4 * x` and a multiple of 1024 |
| Node.CopyFor | src/node.rs:45-67 | the copy has offset 0, no `rows_per_image`, the task's size as extent, and a pitch of at least `4 * x` that is a multiple of 1024 |
| Node.ImageExportNode.constructor | src/node.rs:10-14 | the frame id starts at 0 with no tasks |
| Node.ImageExportNode.Update | src/node.rs:17-24 | the frame id advances by one (wrapping at 2^32), and the task list is replaced rather than extended |
| Node.ImageExportNode.Run | src/node.rs:26-72 | one copy for each task, in order |
| Node.CopyOverrunsTaskBuffer | src/node.rs:51-57 | for a 100 x 2 image the copy reaches 1424 bytes into an 800-byte buffer |
| Node.RowsFitIff | src/node.rs:51-66 | `y - 1` rows at pitch `4a` plus one row fit in `4xy` bytes exactly when `a == x` |
| Node.CopyFitsTaskBufferIff | src/node.rs:51-57 | for two or more rows, the copy fits the task buffer exactly when the width is a multiple of 256 |
| GracePeriod.GracefulFrameCount.New | examples/common/graceperiod.rs:12-21 | a new count reports frame 0 and keeps the grace period |
| GracePeriod.DefaultPlugin | examples/common/graceperiod.rs:32-38 | the default grace period is 10 frames |
| GracePeriod.GracefulFrame | examples/common/graceperiod.rs:52-53 | the graceful frame never exceeds the tick, and it is 0 exactly while the tick is within the grace period |
| GracePeriod.FirstGracefulFrame | examples/common/graceperiod.rs:52-53 | frame 1 comes at tick `grace + 1`, and every earlier tick gives 0 |
| GracePeriod.GracefulFrameStep | examples/common/graceperiod.rs:47-55 | after the grace period each tick raises the frame by one; before it the frame stays 0 |
| GracePeriod.FrameTicker.constructor | examples/common/graceperiod.rs:49 | the local tick starts at 0 |
| GracePeriod.FrameTicker.UpdateGracefulFrameCount | examples/common/graceperiod.rs:47-55 | the tick advances by one (wrapping); the frame becomes `tick - grace` past the grace period and is left alone otherwise |
| BasicTest.ImageEq | tests/basic.rs:63-78 | fails for different lengths; for equal lengths it succeeds exactly when the sum of absolute differences is at most 20, and otherwise reports that sum |
| BasicTest.AssertImageEq | tests/basic.rs:63-78 | the accumulating loop computes `ImageEq` |
| BasicTest.AbsDiffSumSymmetric | tests/basic.rs:68-71 | the error sum does not depend on the order of the images |
| BasicTest.AbsDiffSumSelf | tests/basic.rs:68-71 | an image has error 0 against itself |
| BasicTest.ImageEqSymmetric | tests/basic.rs:63-78 | the comparison is symmetric |
| BasicTest.ImageEqReflexive | tests/basic.rs:63-78 | identical images always compare equal |
| BasicTest.ExpectedFilenames | tests/basic.rs:114-115 | the loop checks exactly `00001.png` through `{image_count:05}.png`, in order |
| BasicTest.ExpectedFilenamesDistinct | tests/basic.rs:114-115 | the checked file names are pairwise distinct |
| BasicTest.ExpectedFileIsWritten | tests/basic.rs:114-117 | the file checked for frame `i` is the one the default exporter writes for frame `i` |
| BasicTest.TestApp.constructor | tests/basic.rs:186 | the frame counter starts at 0 |
| BasicTest.TestApp.Update | tests/basic.rs:183-197 | the frame counter goes up by one per call, and exit is requested exactly when it reaches `image_count` |
| BasicTest.RunUntilExit | tests/basic.rs:183-197 | the app exits after `image_count` updates, or after one update when the count is 0 |

## Left out

- The GPU is not modelled: buffer creation, map, poll, unmap and `copy_texture_to_buffer`. A
  readback is an input byte sequence, and a copy is a `CopyCommand` value.
- Real threads, the `AtomicUsize` or `Mutex` and the 0.25 s sleep are not modelled. The counter
  is a sequential state machine. `Threads.ExportThreads.Sleep` assumes that at least one running
  write finishes during each sleep. That is what makes `Finish` terminate. Without it the loop
  could poll forever, and `Threads.LeakBlocksFinish` shows that a panicked write does cause that.
- `create_dir_all`, `ImageBuffer::save`, the PNG/EXR encoders and `bytemuck::cast_slice` are
  foreign. Their outcomes are inputs. The encoder's input is returned as an `EncodeCall` value.
  The float reinterpretation of the bytes is not modelled; only its length condition is.
- `Encoding.CastDefined`: the alignment requirement of `cast_slice` is not modelled, only the
  length requirement.
- `RenderDevice::align_copy_bytes_per_row` is Bevy's helper, not part of this model's sources.
  It rounds up to wgpu's `COPY_BYTES_PER_ROW_ALIGNMENT` of 256 and is given that definition,
  `n + (256 - n % 256) % 256`, and the three facts it is used for are proved about it: at least
  `n`, a multiple of 256, and the least such multiple.
- Texture formats appear only as their block width and block copy size. The three formats the
  program uses are constants in `Layout`.
- `Plugin.FileFrameId` and `Plugin.FileFrameIdAdvances` require `start <= tick` and no `u64`
  overflow. Once the tick wraps, a debug build panics on the subtraction; that case is excluded
  rather than modelled.
- `BasicTest.TestApp.Update` requires that the `u32` frame counter does not overflow, because
  `+= 1` panics in a debug build. `BasicTest.AssertImageEq` uses an unbounded error sum. In the
  source it is a `usize`, which cannot overflow for images that fit in memory.
- `Ecs.CameraWorld.SetupExportData` requires a physical size for every pending camera. The
  `expect` panic is a precondition, not an outcome.
- `Ecs.NewTask` requires that `4 * x * y` fits in `u32`. The same holds for the `u32` row-size
  arithmetic of `Layout.PrepareLayout`.
- The Bevy wiring is not modelled: `Plugin::build`, system sets and labels, `ExtractComponent`,
  `extract_image_export_tasks`, render-graph registration and asset bookkeeping. Neither are
  the example scenes, `open_image` and the `App` setup of the test. All of these are framework
  code or I/O.
- The animation in the test's `update` (a float sine and cosine) is not modelled. Only the frame
  counter and the exit decision are.
- Writes in flight are ordered by the model's call order. Interleavings of real threads are not
  modelled.

## Findings

| source | as written | input that shows it | evidently intended | confidence | as-written member | corrected member |
|---|---|---|---|---|---|---|
| src/node.rs:51-57 with src/ecs.rs:27 | the copy pitch is `align(x) * 4`, into a buffer of `4 * x * y` bytes | a 100 x 2 image: the pitch is 1024, the copy spans 1024 + 400 = 1424 bytes, and the buffer has 800 | pitch `align(4 * x)` into a buffer of `y * align(4 * x)` bytes, as `prepare_asset` in src/plugin.rs:75-85 does | not executed | Node.CopyOverrunsTaskBuffer | Layout.PaddedCopyFitsBuffer |
