/**
 * src/node.rs: the render-graph node of the camera-based exporter. `update` snapshots the
 * tasks, `run` issues one texture-to-buffer copy per task into the task's readback buffer
 * (whose size src/ecs.rs fixes at 4 bytes per pixel).
 */
module Node {
  import opened Common
  import Layout
  import Ecs

  /** A texture-to-buffer copy: source image, buffer, data layout and extent. */
  datatype CopyCommand = CopyCommand(
    source: Ecs.ImageHandle, bufferSize: nat, offset: nat,
    bytesPerRow: u32, rowsPerImage: Option<u32>, extent: Layout.Extent3d)

  /** The pitch `run` asks for: the row size in pixels is aligned, then multiplied by 4, in `u32`. */
  function RawPitch(size: UVec2): (pitch: nat)
    ensures size.x == 0 ==> pitch == 0
    ensures size.x + Layout.COPY_BYTES_PER_ROW_ALIGNMENT <= U32_LIMIT ==>
      pitch == 4 * Layout.AlignCopyBytesPerRow(size.x) && pitch >= 4 * size.x && pitch % 1024 == 0
  {
    var aligned := Layout.AlignCopyBytesPerRow(size.x);
    if size.x + Layout.COPY_BYTES_PER_ROW_ALIGNMENT <= U32_LIMIT then
      Layout.AlignStaysInU32(size.x);
      TruncateU32(aligned) * 4
    else
      TruncateU32(aligned) * 4
  }

  /** `NonZeroU32::new(pitch).unwrap()` succeeds and the `u32` product does not overflow. */
  predicate PitchDefined(size: UVec2)
  {
    0 < RawPitch(size) < U32_LIMIT
  }

  /** A zero width gives a zero pitch: the `unwrap` panics. */
  lemma ZeroWidthPanics(size: UVec2)
    requires size.x == 0
    ensures !PitchDefined(size)
  {
  }

  /** The copy `run` issues for one task. */
  function CopyFor(t: Ecs.ImageExportTask): (c: CopyCommand)
    requires PitchDefined(t.size)
    ensures c.source == t.renderTarget && c.bufferSize == t.bufferSize
    ensures c.offset == 0 && c.rowsPerImage == None
    ensures c.extent == Layout.Extent3d(t.size.x, t.size.y)
    ensures t.size.x + Layout.COPY_BYTES_PER_ROW_ALIGNMENT <= U32_LIMIT ==>
      c.bytesPerRow >= 4 * t.size.x && c.bytesPerRow % (4 * Layout.COPY_BYTES_PER_ROW_ALIGNMENT) == 0
  {
    Layout.AlignStaysInU32(t.size.x);
    CopyCommand(t.renderTarget, t.bufferSize, 0, RawPitch(t.size), None, Layout.Extent3d(t.size.x, t.size.y))
  }

  class ImageExportNode {
    var frameId: u32
    var tasks: seq<Ecs.ImageExportTask>

    /** `ImageExportNode::default()`. */
    constructor ()
      ensures frameId == 0 && tasks == []
    {
      frameId := 0;
      tasks := [];
    }

    /** `update`: the frame counter advances (wrapping at 2^32) and the task list is replaced, not extended. */
    method Update(worldTasks: seq<Ecs.ImageExportTask>)
      modifies this
      ensures frameId == WrappingInc32(old(frameId))
      ensures tasks == worldTasks
    {
      frameId := WrappingInc32(frameId);
      tasks := worldTasks;
    }

    /** `run`: one copy per task, in task order. */
    method Run() returns (copies: seq<CopyCommand>)
      requires forall i :: 0 <= i < |tasks| ==> PitchDefined(tasks[i].size)
      ensures |copies| == |tasks|
      ensures forall i :: 0 <= i < |tasks| ==> copies[i] == CopyFor(tasks[i])
    {
      copies := [];
      var i := 0;
      while i < |tasks|
        invariant i <= |tasks| && |copies| == i
        invariant forall k :: 0 <= k < i ==> copies[k] == CopyFor(tasks[k])
        decreases |tasks| - i
      {
        copies := copies + [CopyFor(tasks[i])];
        i := i + 1;
      }
    }
  }

  /** Bytes of the buffer a copy reaches: every row but the last at the pitch, then one row of pixels. */
  function CopySpan(c: CopyCommand): nat
    requires c.extent.height > 0
  {
    c.offset + (c.extent.height - 1) * c.bytesPerRow + 4 * c.extent.width
  }

  /** For a 100 x 2 image the copy reaches 1424 bytes into a buffer of 800. */
  lemma CopyOverrunsTaskBuffer()
    ensures var t := Ecs.NewTask(0, UVec2(100, 2));
      && PitchDefined(t.size)
      && CopySpan(CopyFor(t)) == 1424
      && t.bufferSize == 800
  {
    assert Layout.AlignCopyBytesPerRow(100) == 256;
  }

  /** `y - 1` rows at pitch `4 * a` plus one row of `x` pixels fit in `4 * x * y` bytes exactly when `a == x`. */
  lemma RowsFitIff(x: nat, y: nat, a: nat)
    requires a >= x && y >= 2
    ensures (y - 1) * (4 * a) + 4 * x <= 4 * x * y <==> a == x
  {
    var c := y - 1;
    assert 4 * x * y == c * (4 * x) + 4 * x;
    if a > x {
      assert c * (4 * a) == c * (4 * x) + c * (4 * (a - x));
      assert c * (4 * (a - x)) >= 4 * (a - x);
    }
  }

  /** For images of two or more rows the copy stays in the task's buffer only when the width is already aligned. */
  lemma CopyFitsTaskBufferIff(t: Ecs.ImageExportTask)
    requires Ecs.TaskSizeDefined(t.size) && t == Ecs.NewTask(t.renderTarget, t.size)
    requires PitchDefined(t.size) && t.size.y >= 2
    requires t.size.x + Layout.COPY_BYTES_PER_ROW_ALIGNMENT <= U32_LIMIT
    ensures CopySpan(CopyFor(t)) <= t.bufferSize <==> t.size.x % Layout.COPY_BYTES_PER_ROW_ALIGNMENT == 0
  {
    var x, y := t.size.x, t.size.y;
    var a := Layout.AlignCopyBytesPerRow(x);
    Layout.AlignStaysInU32(x);
    Layout.AlignFixesOnlyAligned(x);
    assert CopyFor(t).bytesPerRow == 4 * a;
    assert CopySpan(CopyFor(t)) == (y - 1) * (4 * a) + 4 * x;
    RowsFitIff(x, y, a);
  }
}
