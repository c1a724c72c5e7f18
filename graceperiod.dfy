/**
 * examples/common/graceperiod.rs: a frame counter that stays at zero for a grace period
 * of rendered frames and counts from one afterwards.
 */
module GracePeriod {
  import opened Common

  /** `GracefulFrameCount`: the resource the examples read the current frame from. */
  class GracefulFrameCount {
    var frame: u32
    const gracePeriodFrames: u32

    /** `GracefulFrameCount::new`: no graceful frame yet. */
    constructor New(gracePeriodFrames: u32)
      ensures Frame() == 0
      ensures this.gracePeriodFrames == gracePeriodFrames
    {
      frame := 0;
      this.gracePeriodFrames := gracePeriodFrames;
    }

    function Frame(): u32
      reads this
    {
      frame
    }
  }

  /** `GracePeriodPlugin`. */
  datatype GracePeriodPlugin = GracePeriodPlugin(gracePeriodFrames: u32)

  const DEFAULT_GRACE_PERIOD_FRAMES: u32 := 10

  /** `GracePeriodPlugin::default()`: ten frames of grace. */
  function DefaultPlugin(): (p: GracePeriodPlugin)
    ensures p.gracePeriodFrames == 10
  {
    GracePeriodPlugin(DEFAULT_GRACE_PERIOD_FRAMES)
  }

  /** The graceful frame after `tick` updates, as long as the tick has not wrapped. */
  function GracefulFrame(tick: u32, grace: u32): (f: u32)
    ensures f <= tick
    ensures f == 0 <==> tick <= grace
  {
    if tick > grace then tick - grace else 0
  }

  /** The first graceful frame is frame 1, reached on tick `grace + 1`. */
  lemma FirstGracefulFrame(grace: u32)
    requires grace + 1 < U32_LIMIT
    ensures GracefulFrame(grace + 1, grace) == 1
    ensures forall t: u32 :: t <= grace ==> GracefulFrame(t, grace) == 0
  {
  }

  /** Each tick after the grace period advances the frame by one; during it the frame stays at 0. */
  lemma GracefulFrameStep(tick: u32, grace: u32)
    requires tick + 1 < U32_LIMIT
    ensures tick >= grace ==> GracefulFrame(tick + 1, grace) == GracefulFrame(tick, grace) + 1
    ensures tick < grace ==> GracefulFrame(tick + 1, grace) == GracefulFrame(tick, grace) == 0
  {
  }

  /** `update_graceful_frame_count` with its `Local<u32>` tick. */
  class FrameTicker {
    var tick: u32

    constructor ()
      ensures tick == 0
    {
      tick := 0;
    }

    /**
     * Advances the tick (wrapping at 2^32) and, past the grace period, sets the frame to
     * the tick minus the grace period. Until the tick wraps, this keeps `frame()` equal to
     * `GracefulFrame(tick, grace)`.
     */
    method UpdateGracefulFrameCount(count: GracefulFrameCount)
      modifies this, count
      ensures tick == WrappingInc32(old(tick))
      ensures tick > count.gracePeriodFrames ==> count.Frame() == tick - count.gracePeriodFrames
      ensures tick <= count.gracePeriodFrames ==> count.Frame() == old(count.Frame())
      ensures old(tick) + 1 < U32_LIMIT && old(count.Frame()) == GracefulFrame(old(tick), count.gracePeriodFrames) ==>
        count.Frame() == GracefulFrame(tick, count.gracePeriodFrames)
    {
      tick := WrappingInc32(tick);
      if tick > count.gracePeriodFrames {
        count.frame := tick - count.gracePeriodFrames;
      }
    }
  }
}
