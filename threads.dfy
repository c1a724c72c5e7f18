/**
 * `ExportThreads`: the counter of image writes still in flight, incremented before a write
 * thread is spawned and decremented as the thread's last statement (src/plugin.rs uses an
 * atomic, src/ecs.rs a mutex; both are this sequential state machine).
 * The ghost state splits the count into threads still running and threads that ended in a
 * panic before reaching their decrement.
 */
module Threads {

  class ExportThreads {
    /** The shared counter's value. */
    var count: nat
    /** Spawned write threads that have not ended yet. */
    ghost var running: nat
    /** Write threads that panicked before decrementing: their increment is never undone. */
    ghost var leaked: nat

    ghost predicate Valid()
      reads this
    {
      count == running + leaked
    }

    /** `ExportThreads::default()`: no write in flight. */
    constructor ()
      ensures Valid()
      ensures count == 0 && running == 0 && leaked == 0
    {
      count := 0;
      running := 0;
      leaked := 0;
    }

    /** `count.fetch_add(1)` right before `std::thread::spawn`. */
    method Spawn()
      requires Valid()
      modifies this
      ensures Valid()
      ensures count == old(count) + 1
      ensures running == old(running) + 1 && leaked == old(leaked)
    {
      count := count + 1;
      running := running + 1;
    }

    /** `count.fetch_sub(1)`: a write thread reached the end of its closure. */
    method Complete()
      requires Valid() && running > 0
      modifies this
      ensures Valid()
      ensures count == old(count) - 1
      ensures running == old(running) - 1 && leaked == old(leaked)
    {
      count := count - 1;
      running := running - 1;
    }

    /** A write thread panicked (an `expect`, an `unwrap` or a slice) before its decrement. */
    ghost method Abandon()
      requires Valid() && running > 0
      modifies this
      ensures Valid()
      ensures count == old(count)
      ensures running == old(running) - 1 && leaked == old(leaked) + 1
    {
      running := running - 1;
      leaked := leaked + 1;
    }

    /**
     * One 0.25 s sleep of `finish`: the model lets at least one running write thread end
     * normally while the main thread sleeps.
     */
    method Sleep()
      requires Valid() && running > 0
      modifies this
      ensures Valid()
      ensures count < old(count) && leaked == old(leaked)
    {
      Complete();
    }

    /**
     * `finish`: polls until the counter is zero. It returns only once every spawned write
     * has ended normally, which requires that no write thread panicked.
     */
    method Finish()
      requires Valid() && leaked == 0
      modifies this
      ensures Valid()
      ensures count == 0 && running == 0
    {
      while count > 0
        invariant Valid() && leaked == 0
        decreases count
      {
        Sleep();
      }
    }
  }

  /** What can happen to the write counter: a write is spawned, ends normally, or panics. */
  datatype ThreadEvent = Spawned | Completed | Panicked

  /** Every event that ends a write finds one still running. */
  ghost predicate Feasible(running: nat, events: seq<ThreadEvent>)
    decreases |events|
  {
    if events == [] then true
    else if events[0] == Spawned then Feasible(running + 1, events[1..])
    else running > 0 && Feasible(running - 1, events[1..])
  }

  /**
   * Plays a sequence of events on the counter. Panicked writes are never forgotten: once
   * one has panicked, the counter stays positive whatever happens afterwards, so `finish`
   * would poll forever.
   */
  method Replay(t: ExportThreads, events: seq<ThreadEvent>)
    requires t.Valid() && Feasible(t.running, events)
    modifies t
    ensures t.Valid() && t.leaked >= old(t.leaked)
    ensures t.count >= t.leaked
    ensures old(t.leaked) > 0 ==> t.count > 0
  {
    var i := 0;
    while i < |events|
      invariant i <= |events|
      invariant t.Valid() && t.leaked >= old(t.leaked)
      invariant Feasible(t.running, events[i..])
      decreases |events| - i
    {
      assert events[i..][1..] == events[i + 1..];
      match events[i] {
        case Spawned => t.Spawn();
        case Completed => t.Complete();
        case Panicked => t.Abandon();
      }
      i := i + 1;
    }
  }

  /** While a panicked write's increment is in the counter, `finish`'s loop condition holds. */
  lemma LeakBlocksFinish(t: ExportThreads)
    requires t.Valid() && t.leaked > 0
    ensures t.count > 0
  {
  }
}
