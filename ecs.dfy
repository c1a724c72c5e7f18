/**
 * src/ecs.rs: the older camera-based exporter. Cameras marked for export get an image
 * target and a readback buffer (`setup_export_data`); every frame `export_image` hands each
 * buffer to a write thread that swaps BGRA to RGBA in place and saves `out/{frame:05}.png`.
 */
module Ecs {
  import opened Common
  import Naming
  import Encoding
  import Threads

  type Entity = nat

  /** A `Handle<Image>`: the index of the image in `Assets<Image>`. */
  type ImageHandle = nat

  /** Index `i` of the swapped buffer holds byte `SwapIndex(n, i)` of the original. */
  function SwapIndex(n: nat, i: nat): (j: nat)
    requires i < n
    ensures j < n
  {
    if i >= n - n % 4 then i
    else if i % 4 == 0 then i + 2
    else if i % 4 == 2 then i - 2
    else i
  }

  /**
   * The swap as `chunks_exact_mut(4)` walks it: bytes 0 and 2 of every complete 4-byte
   * group trade places; a trailing group of fewer than 4 bytes is not visited.
   */
  function SwapRedBlue(s: seq<Byte>): (r: seq<Byte>)
    ensures |r| == |s|
    decreases |s|
  {
    if |s| < 4 then s else [s[2], s[1], s[0], s[3]] + SwapRedBlue(s[4..])
  }

  /** Pointwise reading of the swap. */
  lemma {:induction false} SwapRedBlueAt(s: seq<Byte>, i: nat)
    requires i < |s|
    ensures SwapRedBlue(s)[i] == s[SwapIndex(|s|, i)]
    decreases |s|
  {
    if |s| >= 4 && i >= 4 {
      SwapRedBlueAt(s[4..], i - 4);
      assert (|s| - 4) % 4 == |s| % 4 && (i - 4) % 4 == i % 4;
    }
  }

  /** In every complete pixel `p`, red and blue trade places while green and alpha stay. */
  lemma {:induction false} SwapRedBluePixel(s: seq<Byte>, p: nat)
    requires 4 * p + 4 <= |s|
    ensures var r := SwapRedBlue(s);
      && r[4 * p] == s[4 * p + 2] && r[4 * p + 1] == s[4 * p + 1]
      && r[4 * p + 2] == s[4 * p] && r[4 * p + 3] == s[4 * p + 3]
    decreases p
  {
    if p > 0 {
      SwapRedBluePixel(s[4..], p - 1);
    }
  }

  /** The bytes after the last complete pixel are left as they are. */
  lemma SwapRedBlueTail(s: seq<Byte>, i: nat)
    requires |s| - |s| % 4 <= i < |s|
    ensures SwapRedBlue(s)[i] == s[i]
  {
    SwapRedBlueAt(s, i);
  }

  /** Swapping twice gives back the original bytes. */
  lemma {:induction false} SwapRedBlueInvolution(s: seq<Byte>)
    ensures SwapRedBlue(SwapRedBlue(s)) == s
    decreases |s|
  {
    if |s| >= 4 {
      var r := SwapRedBlue(s);
      assert r[4..] == SwapRedBlue(s[4..]);
      SwapRedBlueInvolution(s[4..]);
      assert s == s[..4] + s[4..];
    }
  }

  /** Where the bytes of a complete pixel starting at `i` come from. */
  lemma SwapIndexInPixel(n: nat, i: nat)
    requires i % 4 == 0 && i + 4 <= n
    ensures SwapIndex(n, i) == i + 2 && SwapIndex(n, i + 1) == i + 1
    ensures SwapIndex(n, i + 2) == i && SwapIndex(n, i + 3) == i + 3
  {
    assert i + 4 <= n - n % 4;
    assert (i + 1) % 4 == 1 && (i + 2) % 4 == 2 && (i + 3) % 4 == 3;
  }

  /** Past the last complete pixel, every byte stays where it is. */
  lemma SwapIndexPastPixels(n: nat, i: nat, k: nat)
    requires i % 4 == 0 && i <= k < n < i + 4
    ensures SwapIndex(n, k) == k
  {
    assert n - n % 4 == i;
  }

  /** `bgra_to_rgba`: swaps bytes 0 and 2 of every complete 4-byte group of the buffer in place. */
  method BgraToRgba(a: array<Byte>)
    modifies a
    ensures a[..] == SwapRedBlue(old(a[..]))
  {
    ghost var s := a[..];
    var n := a.Length;
    var i := 0;
    while i + 4 <= n
      invariant 0 <= i <= n && i % 4 == 0
      invariant forall k :: 0 <= k < i ==> a[k] == s[SwapIndex(n, k)]
      invariant forall k :: i <= k < n ==> a[k] == s[k]
      decreases n - i
    {
      SwapIndexInPixel(n, i);
      var r, g, b, al := a[i + 2], a[i + 1], a[i], a[i + 3];
      a[i], a[i + 1], a[i + 2], a[i + 3] := r, g, b, al;
      i := i + 4;
    }
    forall k | 0 <= k < n
      ensures a[k] == SwapRedBlue(s)[k]
    {
      if k >= i {
        SwapIndexPastPixels(n, i, k);
      }
      SwapRedBlueAt(s, k);
    }
  }

  /** `ImageExportTask`: the render target, the readback buffer's byte size and the image size. */
  datatype ImageExportTask = ImageExportTask(renderTarget: ImageHandle, bufferSize: nat, size: UVec2)

  /** `size_of::<u32>() as u32 * size.x * size.y` is computed in `u32`. */
  predicate TaskSizeDefined(size: UVec2)
  {
    4 * size.x * size.y < U32_LIMIT
  }

  /** `ImageExportTask::new`: a buffer of 4 bytes per pixel. */
  function NewTask(renderTarget: ImageHandle, size: UVec2): (t: ImageExportTask)
    requires TaskSizeDefined(size)
    ensures t.renderTarget == renderTarget && t.size == size
    ensures t.bufferSize == 4 * size.x * size.y
  {
    ImageExportTask(renderTarget, 4 * size.x * size.y, size)
  }

  /** A full readback of a task's buffer is exactly the 8-bit RGBA buffer `from_raw` expects. */
  lemma TaskBufferFitsFromRaw(t: ImageExportTask, data: seq<Byte>)
    requires TaskSizeDefined(t.size) && t == NewTask(t.renderTarget, t.size)
    requires |data| == t.bufferSize
    ensures Encoding.FromRawFits(t.size.x, t.size.y, |SwapRedBlue(data)|)
    ensures Encoding.CHANNEL_COUNT * t.size.x * t.size.y == |data|
  {
  }

  /** `RenderTarget` of a camera: its window, or an image. */
  datatype RenderTarget = Window | Image(handle: ImageHandle)

  /** No entity appears twice in the query. */
  predicate Distinct(cameras: seq<Entity>)
  {
    forall i, j :: 0 <= i < j < |cameras| ==> cameras[i] != cameras[j]
  }

  /** Every camera still to be set up has a physical size whose buffer size fits in `u32`. */
  predicate SizesKnown(pending: set<Entity>, physicalSize: map<Entity, Option<UVec2>>)
  {
    forall e :: e in pending ==> e in physicalSize && physicalSize[e].Some? && TaskSizeDefined(physicalSize[e].value)
  }

  /** Which cameras have been visited, and which of them received a task. */
  ghost predicate VisitedKeys(cameras: seq<Entity>, physicalSize: map<Entity, Option<UVec2>>,
      tasks: map<Entity, ImageExportTask>, targets: map<Entity, RenderTarget>, images: seq<UVec2>,
      i: nat, pending: set<Entity>, added: set<Entity>,
      tasks0: map<Entity, ImageExportTask>, targets0: map<Entity, RenderTarget>, images0: seq<UVec2>)
  {
    && i <= |cameras|
    && (forall j :: i <= j < |cameras| ==> (cameras[j] in tasks <==> cameras[j] in tasks0))
    && (forall e :: e in added <==> e in pending && e in cameras[..i])
    && (forall e :: e in tasks <==> e in tasks0 || e in added)
    && (forall e :: e in tasks0 ==> tasks[e] == tasks0[e])
  }

  /** Only the cameras that received a task were redirected. */
  ghost predicate VisitedTargets(cameras: seq<Entity>, physicalSize: map<Entity, Option<UVec2>>,
      tasks: map<Entity, ImageExportTask>, targets: map<Entity, RenderTarget>, images: seq<UVec2>,
      i: nat, pending: set<Entity>, added: set<Entity>,
      tasks0: map<Entity, ImageExportTask>, targets0: map<Entity, RenderTarget>, images0: seq<UVec2>)
  {
    && (forall e :: e !in added ==> (e in targets <==> e in targets0))
    && (forall e :: e in targets && e !in added ==> targets[e] == targets0[e])
  }

  /** Each camera that received a task renders to a new image of its physical size. */
  ghost predicate VisitedNew(cameras: seq<Entity>, physicalSize: map<Entity, Option<UVec2>>,
      tasks: map<Entity, ImageExportTask>, targets: map<Entity, RenderTarget>, images: seq<UVec2>,
      i: nat, pending: set<Entity>, added: set<Entity>,
      tasks0: map<Entity, ImageExportTask>, targets0: map<Entity, RenderTarget>, images0: seq<UVec2>)
  {
    forall e :: e in added ==>
      && e in tasks && e in physicalSize && physicalSize[e].Some? && TaskSizeDefined(physicalSize[e].value)
      && tasks[e] == NewTask(tasks[e].renderTarget, physicalSize[e].value)
      && e in targets && targets[e] == Image(tasks[e].renderTarget)
      && |images0| <= tasks[e].renderTarget < |images|
      && images[tasks[e].renderTarget] == physicalSize[e].value
  }

  /** One new image per camera that received a task, none shared, the old images kept. */
  ghost predicate VisitedImages(cameras: seq<Entity>, physicalSize: map<Entity, Option<UVec2>>,
      tasks: map<Entity, ImageExportTask>, targets: map<Entity, RenderTarget>, images: seq<UVec2>,
      i: nat, pending: set<Entity>, added: set<Entity>,
      tasks0: map<Entity, ImageExportTask>, targets0: map<Entity, RenderTarget>, images0: seq<UVec2>)
  {
    && |images0| <= |images| && images[..|images0|] == images0
    && |images| == |images0| + |added|
    && (forall e1, e2 :: e1 in added && e2 in added && e1 != e2 ==>
          e1 in tasks && e2 in tasks && tasks[e1].renderTarget != tasks[e2].renderTarget)
  }

  /**
   * The state after `setup_export_data` has visited the first `i` cameras, starting from
   * tasks `tasks0`, targets `targets0` and images `images0`; `pending` is the cameras that
   * lacked a task, `added` those of them visited so far.
   */
  ghost predicate Visited(cameras: seq<Entity>, physicalSize: map<Entity, Option<UVec2>>,
      tasks: map<Entity, ImageExportTask>, targets: map<Entity, RenderTarget>, images: seq<UVec2>,
      i: nat, pending: set<Entity>, added: set<Entity>,
      tasks0: map<Entity, ImageExportTask>, targets0: map<Entity, RenderTarget>, images0: seq<UVec2>)
  {
    && VisitedKeys(cameras, physicalSize, tasks, targets, images, i, pending, added, tasks0, targets0, images0)
    && VisitedTargets(cameras, physicalSize, tasks, targets, images, i, pending, added, tasks0, targets0, images0)
    && VisitedNew(cameras, physicalSize, tasks, targets, images, i, pending, added, tasks0, targets0, images0)
    && VisitedImages(cameras, physicalSize, tasks, targets, images, i, pending, added, tasks0, targets0, images0)
  }

  /** A camera that already has a task is skipped. */
  lemma SkipVisited(cameras: seq<Entity>, physicalSize: map<Entity, Option<UVec2>>,
      tasks: map<Entity, ImageExportTask>, targets: map<Entity, RenderTarget>, images: seq<UVec2>,
      i: nat, pending: set<Entity>, added: set<Entity>,
      tasks0: map<Entity, ImageExportTask>, targets0: map<Entity, RenderTarget>, images0: seq<UVec2>)
    requires i < |cameras| && cameras[i] in tasks
    requires forall e :: e in pending <==> e in cameras && e !in tasks0
    requires Visited(cameras, physicalSize, tasks, targets, images, i, pending, added, tasks0, targets0, images0)
    ensures Visited(cameras, physicalSize, tasks, targets, images, i + 1, pending, added, tasks0, targets0, images0)
  {
    assert cameras[..i + 1] == cameras[..i] + [cameras[i]];
  }

  /** The camera being visited lacks a task, is pending and has not been visited. */
  lemma AttachPending(cameras: seq<Entity>, physicalSize: map<Entity, Option<UVec2>>,
      tasks: map<Entity, ImageExportTask>, targets: map<Entity, RenderTarget>, images: seq<UVec2>,
      i: nat, pending: set<Entity>, added: set<Entity>,
      tasks0: map<Entity, ImageExportTask>, targets0: map<Entity, RenderTarget>, images0: seq<UVec2>)
    requires i < |cameras| && cameras[i] !in tasks && Distinct(cameras)
    requires forall e :: e in pending <==> e in cameras && e !in tasks0
    requires VisitedKeys(cameras, physicalSize, tasks, targets, images, i, pending, added, tasks0, targets0, images0)
    ensures cameras[i] in pending && cameras[i] !in added
  {
    var e := cameras[i];
    assert e !in added by {
      forall j | 0 <= j < i ensures cameras[..i][j] != e {
        assert cameras[j] != cameras[i];
      }
    }
  }

  lemma AttachKeys(cameras: seq<Entity>, physicalSize: map<Entity, Option<UVec2>>,
      tasks: map<Entity, ImageExportTask>, targets: map<Entity, RenderTarget>, images: seq<UVec2>,
      i: nat, pending: set<Entity>, added: set<Entity>,
      tasks0: map<Entity, ImageExportTask>, targets0: map<Entity, RenderTarget>, images0: seq<UVec2>)
    requires i < |cameras| && cameras[i] !in tasks && cameras[i] in pending && cameras[i] !in added
    requires Distinct(cameras) && SizesKnown(pending, physicalSize)
    requires VisitedKeys(cameras, physicalSize, tasks, targets, images, i, pending, added, tasks0, targets0, images0)
    ensures VisitedKeys(cameras, physicalSize, tasks[cameras[i] := NewTask(|images|, physicalSize[cameras[i]].value)],
             targets[cameras[i] := Image(|images|)], images + [physicalSize[cameras[i]].value],
             i + 1, pending, added + {cameras[i]}, tasks0, targets0, images0)
  {
    assert cameras[..i + 1] == cameras[..i] + [cameras[i]];
    forall j | i + 1 <= j < |cameras| ensures cameras[j] != cameras[i] {
    }
  }

  lemma AttachTargets(cameras: seq<Entity>, physicalSize: map<Entity, Option<UVec2>>,
      tasks: map<Entity, ImageExportTask>, targets: map<Entity, RenderTarget>, images: seq<UVec2>,
      i: nat, pending: set<Entity>, added: set<Entity>,
      tasks0: map<Entity, ImageExportTask>, targets0: map<Entity, RenderTarget>, images0: seq<UVec2>)
    requires i < |cameras| && cameras[i] in pending && SizesKnown(pending, physicalSize)
    requires VisitedTargets(cameras, physicalSize, tasks, targets, images, i, pending, added, tasks0, targets0, images0)
    ensures VisitedTargets(cameras, physicalSize, tasks[cameras[i] := NewTask(|images|, physicalSize[cameras[i]].value)],
             targets[cameras[i] := Image(|images|)], images + [physicalSize[cameras[i]].value],
             i + 1, pending, added + {cameras[i]}, tasks0, targets0, images0)
  {
    var targets' := targets[cameras[i] := Image(|images|)];
    forall e | e !in added + {cameras[i]}
      ensures (e in targets' <==> e in targets0) && (e in targets' ==> targets'[e] == targets0[e])
    {
      assert e !in added;
    }
  }

  lemma AttachNew(cameras: seq<Entity>, physicalSize: map<Entity, Option<UVec2>>,
      tasks: map<Entity, ImageExportTask>, targets: map<Entity, RenderTarget>, images: seq<UVec2>,
      i: nat, pending: set<Entity>, added: set<Entity>,
      tasks0: map<Entity, ImageExportTask>, targets0: map<Entity, RenderTarget>, images0: seq<UVec2>)
    requires i < |cameras| && cameras[i] in pending && cameras[i] !in added && SizesKnown(pending, physicalSize)
    requires VisitedNew(cameras, physicalSize, tasks, targets, images, i, pending, added, tasks0, targets0, images0) && VisitedImages(cameras, physicalSize, tasks, targets, images, i, pending, added, tasks0, targets0, images0)
    ensures VisitedNew(cameras, physicalSize, tasks[cameras[i] := NewTask(|images|, physicalSize[cameras[i]].value)],
             targets[cameras[i] := Image(|images|)], images + [physicalSize[cameras[i]].value],
             i + 1, pending, added + {cameras[i]}, tasks0, targets0, images0)
  {
  }

  lemma AttachImages(cameras: seq<Entity>, physicalSize: map<Entity, Option<UVec2>>,
      tasks: map<Entity, ImageExportTask>, targets: map<Entity, RenderTarget>, images: seq<UVec2>,
      i: nat, pending: set<Entity>, added: set<Entity>,
      tasks0: map<Entity, ImageExportTask>, targets0: map<Entity, RenderTarget>, images0: seq<UVec2>)
    requires i < |cameras| && cameras[i] in pending && cameras[i] !in added && SizesKnown(pending, physicalSize)
    requires VisitedNew(cameras, physicalSize, tasks, targets, images, i, pending, added, tasks0, targets0, images0) && VisitedImages(cameras, physicalSize, tasks, targets, images, i, pending, added, tasks0, targets0, images0)
    ensures VisitedImages(cameras, physicalSize, tasks[cameras[i] := NewTask(|images|, physicalSize[cameras[i]].value)],
             targets[cameras[i] := Image(|images|)], images + [physicalSize[cameras[i]].value],
             i + 1, pending, added + {cameras[i]}, tasks0, targets0, images0)
  {
    var images' := images + [physicalSize[cameras[i]].value];
    assert images'[..|images0|] == images0;
  }

  /** A camera without a task gets image number `|images|` and a task over it. */
  lemma AttachVisited(cameras: seq<Entity>, physicalSize: map<Entity, Option<UVec2>>,
      tasks: map<Entity, ImageExportTask>, targets: map<Entity, RenderTarget>, images: seq<UVec2>,
      i: nat, pending: set<Entity>, added: set<Entity>,
      tasks0: map<Entity, ImageExportTask>, targets0: map<Entity, RenderTarget>, images0: seq<UVec2>)
    requires i < |cameras| && cameras[i] !in tasks && Distinct(cameras) && SizesKnown(pending, physicalSize)
    requires forall e :: e in pending <==> e in cameras && e !in tasks0
    requires Visited(cameras, physicalSize, tasks, targets, images, i, pending, added, tasks0, targets0, images0)
    ensures cameras[i] in pending
    ensures Visited(cameras, physicalSize, tasks[cameras[i] := NewTask(|images|, physicalSize[cameras[i]].value)],
             targets[cameras[i] := Image(|images|)], images + [physicalSize[cameras[i]].value],
             i + 1, pending, added + {cameras[i]}, tasks0, targets0, images0)
  {
    AttachPending(cameras, physicalSize, tasks, targets, images, i, pending, added, tasks0, targets0, images0);
    AttachKeys(cameras, physicalSize, tasks, targets, images, i, pending, added, tasks0, targets0, images0);
    AttachTargets(cameras, physicalSize, tasks, targets, images, i, pending, added, tasks0, targets0, images0);
    AttachNew(cameras, physicalSize, tasks, targets, images, i, pending, added, tasks0, targets0, images0);
    AttachImages(cameras, physicalSize, tasks, targets, images, i, pending, added, tasks0, targets0, images0);
  }

  /** The cameras `setup_export_data` sees, with the components and assets it reads and writes. */
  class CameraWorld {
    /** Entities with `ImageExportCamera` and `Camera`, in query order. */
    var cameras: seq<Entity>
    var targets: map<Entity, RenderTarget>
    /** `camera.physical_target_size()`. */
    var physicalSize: map<Entity, Option<UVec2>>
    var tasks: map<Entity, ImageExportTask>
    /** `Assets<Image>`: the size of every image added so far. */
    var images: seq<UVec2>

    /** The cameras that lack an `ImageExportTask`: what the query filter lets through. */
    function Pending(): set<Entity>
      reads this
    {
      set e | e in cameras && e !in tasks
    }

    predicate Ready()
      reads this
    {
      && (forall i, j :: 0 <= i < j < |cameras| ==> cameras[i] != cameras[j])
      && (forall e :: e in Pending() ==>
            e in physicalSize && physicalSize[e].Some? && TaskSizeDefined(physicalSize[e].value))
    }

    /** One camera of `setup_export_data`: add the image, redirect the camera, attach the task. */
    method AttachTask(e: Entity, size: UVec2)
      requires TaskSizeDefined(size)
      modifies this
      ensures images == old(images) + [size]
      ensures targets == old(targets)[e := Image(|old(images)|)]
      ensures tasks == old(tasks)[e := NewTask(|old(images)|, size)]
      ensures cameras == old(cameras) && physicalSize == old(physicalSize)
    {
      var handle := |images|;
      images := images + [size];
      targets := targets[e := Image(handle)];
      tasks := tasks[e := NewTask(handle, size)];
    }

    /** One camera of the loop: a camera without a task gets its image and task, any other is skipped. */
    method VisitCamera(i: nat, ghost pending: set<Entity>, ghost added: set<Entity>,
                       ghost tasks0: map<Entity, ImageExportTask>, ghost targets0: map<Entity, RenderTarget>,
                       ghost images0: seq<UVec2>)
        returns (ghost added': set<Entity>)
      requires i < |cameras| && Distinct(cameras) && SizesKnown(pending, physicalSize)
      requires forall e :: e in pending <==> e in cameras && e !in tasks0
      requires Visited(cameras, physicalSize, tasks, targets, images, i, pending, added, tasks0, targets0, images0)
      modifies this
      ensures cameras == old(cameras) && physicalSize == old(physicalSize)
      ensures Visited(cameras, physicalSize, tasks, targets, images, i + 1, pending, added', tasks0, targets0, images0)
    {
      var e := cameras[i];
      if e in tasks {
        SkipVisited(cameras, physicalSize, tasks, targets, images, i, pending, added, tasks0, targets0, images0);
        added' := added;
      } else {
        AttachVisited(cameras, physicalSize, tasks, targets, images, i, pending, added, tasks0, targets0, images0);
        AttachTask(e, physicalSize[e].value);
        added' := added + {e};
      }
    }

    /**
     * `setup_export_data`: every camera without a task gets a new image of its physical size
     * as render target and a task over it, one image per camera; cameras that already have a
     * task are not touched. The `expect` on the physical size is the precondition.
     */
    method SetupExportData()
      requires Ready()
      modifies this
      ensures cameras == old(cameras) && physicalSize == old(physicalSize)
      ensures forall e :: e in tasks <==> e in old(tasks) || e in old(Pending())
      ensures forall e :: e in old(tasks) ==> tasks[e] == old(tasks)[e]
      ensures forall e :: e !in old(Pending()) ==> (e in targets <==> e in old(targets))
      ensures forall e :: e in targets && e !in old(Pending()) ==> targets[e] == old(targets)[e]
      ensures forall e :: e in old(Pending()) ==>
        && tasks[e] == NewTask(tasks[e].renderTarget, physicalSize[e].value)
        && e in targets && targets[e] == Image(tasks[e].renderTarget)
        && |old(images)| <= tasks[e].renderTarget < |images|
        && images[tasks[e].renderTarget] == physicalSize[e].value
      ensures |old(images)| <= |images| && images[..|old(images)|] == old(images)
      ensures |images| == |old(images)| + |old(Pending())|
      ensures forall e1, e2 :: e1 in old(Pending()) && e2 in old(Pending()) && e1 != e2 ==>
        tasks[e1].renderTarget != tasks[e2].renderTarget
    {
      ghost var pending := Pending();
      assert SizesKnown(pending, physicalSize);
      ghost var added: set<Entity> := {};
      var i := 0;
      assert images[..|images|] == images;
      while i < |cameras|
        invariant cameras == old(cameras) && physicalSize == old(physicalSize)
        invariant Visited(cameras, physicalSize, tasks, targets, images, i, pending, added, old(tasks), old(targets), old(images))
        decreases |cameras| - i
      {
        added := VisitCamera(i, pending, added, old(tasks), old(targets), old(images));
        i := i + 1;
      }
      assert cameras[..i] == cameras;
      assert added == pending;
    }
  }

  /** What `export_image` moves into a write thread: the readback, the size and the frame id. */
  datatype EcsJob = EcsJob(data: seq<Byte>, size: UVec2, frameId: u32)

  /** `export_image` with its `Local<u32>` frame counter and the shared write counter. */
  class ImageExporter {
    var frameId: u32
    const threads: Threads.ExportThreads

    constructor (threads: Threads.ExportThreads)
      ensures frameId == 0 && this.threads == threads
    {
      frameId := 0;
      this.threads := threads;
    }

    /**
     * Advances the frame counter (wrapping at 2^32); every task's readback then goes to a
     * write thread with that same frame id, the counter incremented before each spawn.
     */
    method ExportImage(tasks: seq<ImageExportTask>, readbacks: seq<seq<Byte>>) returns (jobs: seq<EcsJob>)
      requires |readbacks| == |tasks|
      requires threads.Valid()
      modifies this, threads
      ensures frameId == WrappingInc32(old(frameId))
      ensures |jobs| == |tasks|
      ensures forall i :: 0 <= i < |jobs| ==> jobs[i] == EcsJob(readbacks[i], tasks[i].size, frameId)
      ensures threads.Valid()
      ensures threads.count == old(threads.count) + |tasks|
      ensures threads.running == old(threads.running) + |tasks| && threads.leaked == old(threads.leaked)
    {
      frameId := WrappingInc32(frameId);
      jobs := [];
      var i := 0;
      while i < |tasks|
        invariant i <= |tasks| && |jobs| == i
        invariant frameId == WrappingInc32(old(frameId))
        invariant forall k :: 0 <= k < i ==> jobs[k] == EcsJob(readbacks[k], tasks[k].size, frameId)
        invariant threads.Valid()
        invariant threads.count == old(threads.count) + i
        invariant threads.running == old(threads.running) + i && threads.leaked == old(threads.leaked)
        decreases |tasks| - i
      {
        threads.Spawn();
        jobs := jobs + [EcsJob(readbacks[i], tasks[i].size, frameId)];
        i := i + 1;
      }
    }
  }

  /** The directory every frame is written to. */
  const EXPORT_DIR: string := "out"

  /** How a write thread of src/ecs.rs ends: a panic, or the image it saved. */
  datatype EcsOutcome = Panicked(site: PanicSite) | Saved(encoded: Encoding.EncodeCall)

  /**
   * `save_image_file`: swap to RGBA, build the buffer (`unwrap`), create the directory
   * (`panic!` on failure), save to `out/{frame_id:05}.png` (`unwrap`).
   */
  function EcsSaveImageFile(job: EcsJob, dirCreated: bool, saved: Encoding.SaveResult): (o: EcsOutcome)
    ensures o.Saved? <==>
      Encoding.FromRawFits(job.size.x, job.size.y, |job.data|) && dirCreated && saved.Ok?
    ensures !Encoding.FromRawFits(job.size.x, job.size.y, |job.data|) ==> o == Panicked(FromRawUnwrap)
    ensures o.Saved? ==>
      && o.encoded.path == Naming.FramePath(EXPORT_DIR, job.frameId, "png")
      && o.encoded.layout == Encoding.RgbaU8
      && o.encoded.bytes == SwapRedBlue(job.data)
      && o.encoded.width == job.size.x && o.encoded.height == job.size.y
  {
    var rgba := SwapRedBlue(job.data);
    var call := Encoding.EncoderInput(Encoding.RgbaU8, rgba, job.size.x, job.size.y, Naming.FramePath(EXPORT_DIR, job.frameId, "png"));
    if call.None? then Panicked(FromRawUnwrap)
    else if !dirCreated then Panicked(DirCreation)
    else if saved.Err? then Panicked(SaveUnwrap)
    else Saved(call.value)
  }

  /**
   * Runs a write thread: the swap happens in place on the moved vector, and the counter
   * is decremented only when `save_image_file` returns.
   */
  method RunEcsWriteTask(threads: Threads.ExportThreads, job: EcsJob, dirCreated: bool, saved: Encoding.SaveResult)
      returns (o: EcsOutcome)
    requires threads.Valid() && threads.running > 0
    modifies threads
    ensures o == EcsSaveImageFile(job, dirCreated, saved)
    ensures threads.Valid() && threads.running == old(threads.running) - 1
    ensures o.Saved? ==> threads.count == old(threads.count) - 1 && threads.leaked == old(threads.leaked)
    ensures o.Panicked? ==> threads.count == old(threads.count) && threads.leaked == old(threads.leaked) + 1
  {
    var data := new Byte[|job.data|](i requires 0 <= i < |job.data| => job.data[i]);
    assert data[..] == job.data;
    BgraToRgba(data);
    var rgba := data[..];
    var path := Naming.FramePath(EXPORT_DIR, job.frameId, "png");
    var call := Encoding.EncoderInput(Encoding.RgbaU8, rgba, job.size.x, job.size.y, path);
    if call.None? {
      threads.Abandon();
      return Panicked(FromRawUnwrap);
    }
    if !dirCreated {
      threads.Abandon();
      return Panicked(DirCreation);
    }
    if saved.Err? {
      threads.Abandon();
      return Panicked(SaveUnwrap);
    }
    o := Saved(call.value);
    threads.Complete();
  }
}
