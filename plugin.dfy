/**
 * src/plugin.rs: the export settings and their defaults, the start-frame capture of
 * `setup_exporters`, and `save_buffer_to_disk` with the body of the write thread it spawns.
 * The GPU readback is an input (the mapped buffer's bytes); directory creation and the
 * encoder are inputs too (their success or error).
 */
module Plugin {
  import opened Common
  import Naming
  import Rows
  import Layout
  import Encoding
  import Threads

  /** An ECS entity id. */
  type Entity = nat

  /** `ImageExportSettings`: where the frames go and in which file format. */
  datatype ImageExportSettings = ImageExportSettings(outputDir: string, extension: string)

  /** `ImageExportSettings::default()`. */
  function DefaultSettings(): (s: ImageExportSettings)
    ensures s.outputDir == "out" && s.extension == "png"
  {
    ImageExportSettings("out", "png")
  }

  /** The file a frame is written to: `{output_dir}/{frame_id:05}.{extension}`. */
  function OutputPath(settings: ImageExportSettings, frameId: nat): (path: string)
    ensures Naming.FrameIdOfPath(settings.outputDir, settings.extension, path) == Some(frameId)
  {
    Naming.FramePathRoundTrip(settings.outputDir, frameId, settings.extension);
    Naming.FramePath(settings.outputDir, frameId, settings.extension)
  }

  /** With the default settings the first frame lands in `out/00001.png`, written as 8-bit RGBA. */
  lemma DefaultFirstFrame()
    ensures OutputPath(DefaultSettings(), 1) == "out/00001.png"
    ensures Encoding.PixelLayoutFor(DefaultSettings().extension) == Encoding.RgbaU8
  {
    Naming.Pad5Examples();
  }

  /**
   * `setup_exporters` with its `Local<u64>` tick; `startFrames` holds the
   * `ImageExportStartFrame` components and `exporters` the entities with settings.
   */
  class ExporterRegistry {
    var tick: u64
    var exporters: set<Entity>
    var startFrames: map<Entity, u64>

    constructor ()
      ensures tick == 0 && exporters == {} && startFrames == map[]
    {
      tick := 0;
      exporters := {};
      startFrames := map[];
    }

    /** An entity with `ImageExportSettings` is spawned. */
    method AddExporter(e: Entity)
      modifies this
      ensures exporters == old(exporters) + {e}
      ensures tick == old(tick) && startFrames == old(startFrames)
    {
      exporters := exporters + {e};
    }

    /**
     * Advances the tick (wrapping at 2^64) and gives every exporter still without a start
     * frame the new tick as its start frame; existing start frames are never overwritten.
     */
    method SetupExporters()
      modifies this
      ensures tick == WrappingInc64(old(tick))
      ensures exporters == old(exporters)
      ensures startFrames.Keys == old(startFrames).Keys + exporters
      ensures forall e :: e in old(startFrames) ==> startFrames[e] == old(startFrames)[e]
      ensures forall e :: e in exporters && e !in old(startFrames) ==> startFrames[e] == tick
    {
      tick := WrappingInc64(tick);
      var pending := exporters - startFrames.Keys;
      while pending != {}
        invariant tick == WrappingInc64(old(tick)) && exporters == old(exporters)
        invariant pending <= exporters - old(startFrames).Keys
        invariant startFrames.Keys == old(startFrames).Keys + (exporters - old(startFrames).Keys - pending)
        invariant forall e :: e in old(startFrames) ==> startFrames[e] == old(startFrames)[e]
        invariant forall e :: e in startFrames && e !in old(startFrames) ==> startFrames[e] == tick
        decreases pending
      {
        var e :| e in pending;
        startFrames := startFrames[e := tick];
        pending := pending - {e};
      }
    }
  }

  /** `*frame_id - start_frame.0 + 1` in `u64` neither underflows nor overflows. */
  predicate FrameIdDefined(tick: u64, start: u64)
  {
    start <= tick && tick - start + 1 < U64_LIMIT
  }

  /** The file frame id: the number of ticks since the start frame, the start tick included. */
  function FileFrameId(tick: u64, start: u64): (id: u64)
    requires FrameIdDefined(tick, start)
    ensures id >= 1
    ensures id == 1 <==> tick == start
  {
    tick - start + 1
  }

  /** One tick later, the same exporter's frame id is one higher. */
  lemma FileFrameIdAdvances(tick: u64, start: u64)
    requires FrameIdDefined(tick, start) && tick + 1 < U64_LIMIT && FrameIdDefined(tick + 1, start)
    ensures FileFrameId(WrappingInc64(tick), start) == FileFrameId(tick, start) + 1
  {
  }

  /** What `prepare_asset` produced for an exporter's image, with the bytes its buffer maps to. */
  datatype GpuSource = GpuSource(layout: Layout.ExportLayout, readback: seq<Byte>)

  /** One item of the query: settings, start frame, and the prepared source if there is one yet. */
  datatype ExportBundle = ExportBundle(entity: Entity, settings: ImageExportSettings, startFrame: u64, source: Option<GpuSource>)

  /** Everything a write thread moves into its closure, with the exporter it came from. */
  datatype WriteJob = WriteJob(
    entity: Entity, settings: ImageExportSettings, startFrame: u64, frameId: u64,
    layout: Layout.ExportLayout, imageBytes: seq<Byte>)

  /** Every bundle that will be written has a frame id computable on `tick`. */
  predicate BundlesReady(bundles: seq<ExportBundle>, tick: u64)
  {
    forall b :: b in bundles && b.source.Some? ==> FrameIdDefined(tick, b.startFrame)
  }

  /** The bundles whose source is prepared (`sources.get` finds it), in query order. */
  function Prepared(bundles: seq<ExportBundle>): (r: seq<ExportBundle>)
    ensures |r| <= |bundles|
    ensures forall b :: b in r <==> b in bundles && b.source.Some?
    ensures (forall i :: 0 <= i < |bundles| ==> bundles[i].source.Some?) ==> r == bundles
  {
    if bundles == [] then []
    else
      assert bundles == [bundles[0]] + bundles[1..];
      if bundles[0].source.None? then Prepared(bundles[1..])
      else [bundles[0]] + Prepared(bundles[1..])
  }

  /** The write job for a bundle whose source is prepared. */
  function JobFor(b: ExportBundle, tick: u64): (job: WriteJob)
    requires b.source.Some? && FrameIdDefined(tick, b.startFrame)
    ensures job.entity == b.entity && job.settings == b.settings && job.startFrame == b.startFrame
    ensures job.frameId == FileFrameId(tick, b.startFrame)
    ensures job.layout == b.source.value.layout && job.imageBytes == b.source.value.readback
  {
    WriteJob(b.entity, b.settings, b.startFrame, FileFrameId(tick, b.startFrame), b.source.value.layout, b.source.value.readback)
  }

  /** The write jobs one call spawns: one per prepared bundle, in query order; unprepared bundles are skipped. */
  function JobsFor(bundles: seq<ExportBundle>, tick: u64): (jobs: seq<WriteJob>)
    requires BundlesReady(bundles, tick)
    ensures |jobs| == |Prepared(bundles)|
    ensures forall j :: 0 <= j < |jobs| ==> jobs[j] == JobFor(Prepared(bundles)[j], tick)
  {
    if bundles == [] then []
    else
      assert bundles == [bundles[0]] + bundles[1..];
      var rest := JobsFor(bundles[1..], tick);
      if bundles[0].source.None? then rest
      else [JobFor(bundles[0], tick)] + rest
  }

  /** The first bundle contributes its job, if prepared, ahead of the jobs of the rest. */
  lemma JobsForStep(bundles: seq<ExportBundle>, tick: u64)
    requires BundlesReady(bundles, tick) && |bundles| > 0
    ensures BundlesReady(bundles[1..], tick)
    ensures bundles[0].source.Some? ==> FrameIdDefined(tick, bundles[0].startFrame)
    ensures JobsFor(bundles, tick)
      == (if bundles[0].source.Some? then [JobFor(bundles[0], tick)] else []) + JobsFor(bundles[1..], tick)
  {
    assert bundles == [bundles[0]] + bundles[1..];
  }

  lemma AppendJobs(done: seq<WriteJob>, step: seq<WriteJob>, later: seq<WriteJob>, todo: seq<WriteJob>)
    requires todo == step + later
    ensures done + todo == (done + step) + later
  {
  }

  /** `save_buffer_to_disk` with its own `Local<u64>` tick and the shared write counter. */
  class BufferSaver {
    var tick: u64
    const threads: Threads.ExportThreads

    constructor (threads: Threads.ExportThreads)
      ensures tick == 0 && this.threads == threads
    {
      tick := 0;
      this.threads := threads;
    }

    /** One iteration: a bundle whose source is prepared gets a frame id, an increment and a write. */
    method SpawnWrite(b: ExportBundle) returns (spawned: seq<WriteJob>)
      requires threads.Valid()
      requires b.source.Some? ==> FrameIdDefined(tick, b.startFrame)
      modifies threads
      ensures spawned == if b.source.Some? then [JobFor(b, tick)] else []
      ensures threads.Valid()
      ensures threads.count == old(threads.count) + |spawned|
      ensures threads.running == old(threads.running) + |spawned| && threads.leaked == old(threads.leaked)
    {
      spawned := [];
      if b.source.Some? {
        threads.Spawn();
        spawned := [JobFor(b, tick)];
      }
    }

    /**
     * Advances the tick, then for every bundle with a prepared source takes its readback,
     * computes its frame id, increments the counter and spawns a write.
     */
    method SaveBufferToDisk(bundles: seq<ExportBundle>) returns (jobs: seq<WriteJob>)
      requires threads.Valid()
      requires BundlesReady(bundles, WrappingInc64(tick))
      modifies this, threads
      ensures tick == WrappingInc64(old(tick))
      ensures jobs == JobsFor(bundles, tick)
      ensures threads.Valid()
      ensures threads.count == old(threads.count) + |jobs|
      ensures threads.running == old(threads.running) + |jobs| && threads.leaked == old(threads.leaked)
    {
      tick := WrappingInc64(tick);
      jobs := [];
      var rest := bundles;
      while rest != []
        invariant tick == WrappingInc64(old(tick))
        invariant BundlesReady(rest, tick)
        invariant jobs + JobsFor(rest, tick) == JobsFor(bundles, tick)
        invariant threads.Valid()
        invariant threads.count == old(threads.count) + |jobs|
        invariant threads.running == old(threads.running) + |jobs| && threads.leaked == old(threads.leaked)
        decreases |rest|
      {
        JobsForStep(rest, tick);
        var spawned := SpawnWrite(rest[0]);
        AppendJobs(jobs, spawned, JobsFor(rest[1..], tick), JobsFor(rest, tick));
        jobs := jobs + spawned;
        rest := rest[1..];
      }
    }

    /**
     * An exporter whose start frame is the next tick, saved on `n + 1` consecutive calls:
     * the last call writes its frame `n + 1`, and every call spawned one write.
     */
    method SaveConsecutive(b: ExportBundle, n: nat) returns (jobs: seq<WriteJob>)
      requires threads.Valid()
      requires b.source.Some? && b.startFrame == tick + 1 && tick + n + 1 < U64_LIMIT
      modifies this, threads
      ensures tick == old(tick) + n + 1
      ensures |jobs| == 1 && jobs[0].entity == b.entity && jobs[0].frameId == n + 1
      ensures threads.Valid() && threads.leaked == old(threads.leaked)
      ensures threads.count == old(threads.count) + n + 1
    {
      jobs := SaveBufferToDisk([b]);
      var k := 0;
      while k < n
        invariant k <= n && tick == old(tick) + k + 1
        invariant |jobs| == 1 && jobs[0].entity == b.entity && jobs[0].frameId == k + 1
        invariant threads.Valid() && threads.leaked == old(threads.leaked)
        invariant threads.count == old(threads.count) + k + 1
        decreases n - k
      {
        jobs := SaveBufferToDisk([b]);
        k := k + 1;
      }
    }
  }

  /** How a write thread ends: in a panic at `site`, or normally, after the optional encode and print. */
  datatype WriteOutcome =
    | Panicked(site: PanicSite)
    | Returned(encoded: Option<Encoding.EncodeCall>, printed: Option<string>)

  function BufferCreationMessage(path: string): string
  {
    "Failed creating image buffer for '" + path + "'"
  }

  function UnsupportedFormatMessage(hint: string): string
  {
    "Image format " + hint + " is not supported"
  }

  /** The bytes the write thread encodes: the readback with its row padding stripped. */
  predicate WriteDepadDefined(job: WriteJob)
  {
    Rows.DepadDefined(job.imageBytes, job.layout.bytesPerRow, job.layout.paddedBytesPerRow)
  }

  function WrittenBytes(job: WriteJob): seq<Byte>
    requires WriteDepadDefined(job)
  {
    Rows.Depad(job.imageBytes, job.layout.bytesPerRow, job.layout.paddedBytesPerRow)
  }

  /**
   * The body of the spawned write thread: strip the padding, build the path, create the
   * directory (panicking on failure), pick the pixel type from the extension and hand the
   * buffer to the encoder; a `from_raw` failure and an unsupported-format error are printed.
   */
  function WriteTask(job: WriteJob, dirCreated: bool, saved: Encoding.SaveResult): (o: WriteOutcome)
    ensures !WriteDepadDefined(job) ==> o == Panicked(ChunkSlice)
    ensures WriteDepadDefined(job) && !dirCreated ==> o == Panicked(DirCreation)
    ensures o.Panicked? <==>
      || !WriteDepadDefined(job)
      || !dirCreated
      || !Encoding.CastDefined(Encoding.PixelLayoutFor(job.settings.extension), |WrittenBytes(job)|)
    ensures o.Returned? && o.encoded.Some? ==>
      && o.encoded.value.path == OutputPath(job.settings, job.frameId)
      && o.encoded.value.layout == Encoding.PixelLayoutFor(job.settings.extension)
      && o.encoded.value.bytes == WrittenBytes(job)
      && o.encoded.value.width == job.layout.sourceSize.width
      && o.encoded.value.height == job.layout.sourceSize.height
      && (o.printed.Some? <==> Encoding.UnsupportedFormatHint(saved).Some?)
    ensures o.Returned? && o.encoded.None? ==>
      o.printed == Some(BufferCreationMessage(OutputPath(job.settings, job.frameId)))
    ensures o.Returned? ==>
      o.encoded == Encoding.EncoderInput(Encoding.PixelLayoutFor(job.settings.extension), WrittenBytes(job),
                                         job.layout.sourceSize.width, job.layout.sourceSize.height,
                                         OutputPath(job.settings, job.frameId))
  {
    if !WriteDepadDefined(job) then Panicked(ChunkSlice)
    else
      var bytes := WrittenBytes(job);
      var path := OutputPath(job.settings, job.frameId);
      if !dirCreated then Panicked(DirCreation)
      else
        var p := Encoding.PixelLayoutFor(job.settings.extension);
        if !Encoding.CastDefined(p, |bytes|) then Panicked(CastSlice)
        else
          var call := Encoding.EncoderInput(p, bytes, job.layout.sourceSize.width, job.layout.sourceSize.height, path);
          if call.None? then Returned(None, Some(BufferCreationMessage(path)))
          else
            var hint := Encoding.UnsupportedFormatHint(saved);
            Returned(call, if hint.Some? then Some(UnsupportedFormatMessage(hint.value)) else None)
  }

  /**
   * Runs a spawned write thread to its end. The counter is decremented exactly when the
   * thread returns normally; a panic leaves the increment in place for good.
   */
  method RunWriteTask(threads: Threads.ExportThreads, job: WriteJob, dirCreated: bool, saved: Encoding.SaveResult)
      returns (o: WriteOutcome)
    requires threads.Valid() && threads.running > 0
    modifies threads
    ensures o == WriteTask(job, dirCreated, saved)
    ensures threads.Valid() && threads.running == old(threads.running) - 1
    ensures o.Returned? ==> threads.count == old(threads.count) - 1 && threads.leaked == old(threads.leaked)
    ensures o.Panicked? ==> threads.count == old(threads.count) && threads.leaked == old(threads.leaked) + 1
  {
    var bpr, padded := job.layout.bytesPerRow, job.layout.paddedBytesPerRow;
    if !Rows.DepadDefined(job.imageBytes, bpr, padded) {
      threads.Abandon();
      return Panicked(ChunkSlice);
    }
    var bytes := Rows.DepadRows(job.imageBytes, bpr, padded);
    var path := OutputPath(job.settings, job.frameId);
    if !dirCreated {
      threads.Abandon();
      return Panicked(DirCreation);
    }
    var p := Encoding.PixelLayoutFor(job.settings.extension);
    if !Encoding.CastDefined(p, |bytes|) {
      threads.Abandon();
      return Panicked(CastSlice);
    }
    var call := Encoding.EncoderInput(p, bytes, job.layout.sourceSize.width, job.layout.sourceSize.height, path);
    if call.None? {
      o := Returned(None, Some(BufferCreationMessage(path)));
    } else {
      var hint := Encoding.UnsupportedFormatHint(saved);
      o := Returned(call, if hint.Some? then Some(UnsupportedFormatMessage(hint.value)) else None);
    }
    threads.Complete();
  }

  /**
   * A full readback of a prepared source never panics while its padding is stripped, and
   * leaves `height` rows of `bytes_per_row` bytes; with no padding the bytes are untouched.
   */
  lemma ReadbackDepads(job: WriteJob)
    requires Layout.Depaddable(job.layout)
    requires |job.imageBytes| == job.layout.bufferSize
    ensures WriteDepadDefined(job)
    ensures |WrittenBytes(job)| == job.layout.sourceSize.height * job.layout.bytesPerRow
    ensures job.layout.bytesPerRow == job.layout.paddedBytesPerRow ==> WrittenBytes(job) == job.imageBytes
  {
    Layout.DepadReadbackLength(job.layout, job.imageBytes);
    if job.layout.bytesPerRow == job.layout.paddedBytesPerRow {
      assert |job.imageBytes| == job.layout.sourceSize.height * job.layout.bytesPerRow;
    }
  }

  /** Texture formats whose texels are the pixel type the extension selects. */
  predicate FormatMatchesExtension(format: Layout.TextureFormat, extension: string)
  {
    || (format == Layout.RGBA8_UNORM_SRGB && extension != "exr")
    || (format == Layout.RGBA32_FLOAT && extension == "exr")
  }

  /** Byte counts of `height` rows of `width` RGBA pixels of `unit`-byte channels. */
  lemma PixelBytes(w: nat, h: nat, unit: nat, bytesPerRow: nat, padded: nat, len: nat)
    requires bytesPerRow == w * (4 * unit) && len == h * bytesPerRow
    requires bytesPerRow <= padded && h * padded < U32_LIMIT
    ensures len == (4 * w * h) * unit
    ensures len <= h * padded < U32_LIMIT
  {
    assert h * bytesPerRow <= h * padded;
  }

  /** The byte-count facts behind `MatchingReadbackIsEncoded`. */
  lemma MatchingReadbackFits(job: WriteJob, format: Layout.TextureFormat)
    requires FormatMatchesExtension(format, job.settings.extension)
    requires Layout.LayoutComputable(job.layout.sourceSize, format)
    requires job.layout == Layout.PrepareLayout(job.layout.sourceSize, format)
    requires 0 < job.layout.sourceSize.width
    requires Layout.UnpaddedBytesPerRow(job.layout.sourceSize, format) + Layout.COPY_BYTES_PER_ROW_ALIGNMENT <= U32_LIMIT
    requires |job.imageBytes| == job.layout.bufferSize
    ensures WriteDepadDefined(job)
    ensures var p := Encoding.PixelLayoutFor(job.settings.extension);
      && Encoding.CastDefined(p, |WrittenBytes(job)|)
      && Encoding.FromRawFits(job.layout.sourceSize.width, job.layout.sourceSize.height,
                              Encoding.SubpixelCount(p, |WrittenBytes(job)|))
  {
    var l := job.layout;
    var w, h := l.sourceSize.width, l.sourceSize.height;
    Layout.PreparedLayoutIsDepaddable(l.sourceSize, format);
    ReadbackDepads(job);
    var len := |WrittenBytes(job)|;
    var p := Encoding.PixelLayoutFor(job.settings.extension);
    var unit := Encoding.SubpixelBytes(p);
    assert l.bytesPerRow == w * (4 * unit);
    PixelBytes(w, h, unit, l.bytesPerRow, l.paddedBytesPerRow, len);
    Encoding.WholePixelsFit(p, w, h, len);
  }

  /**
   * When the texture format matches the extension and the directory exists, the write
   * thread of a full readback hands exactly `width * height` pixels to the encoder.
   */
  lemma MatchingReadbackIsEncoded(job: WriteJob, format: Layout.TextureFormat, saved: Encoding.SaveResult)
    requires FormatMatchesExtension(format, job.settings.extension)
    requires Layout.LayoutComputable(job.layout.sourceSize, format)
    requires job.layout == Layout.PrepareLayout(job.layout.sourceSize, format)
    requires 0 < job.layout.sourceSize.width
    requires Layout.UnpaddedBytesPerRow(job.layout.sourceSize, format) + Layout.COPY_BYTES_PER_ROW_ALIGNMENT <= U32_LIMIT
    requires |job.imageBytes| == job.layout.bufferSize
    ensures WriteTask(job, true, saved).Returned?
    ensures WriteTask(job, true, saved).encoded.Some?
  {
    MatchingReadbackFits(job, format);
  }
}
