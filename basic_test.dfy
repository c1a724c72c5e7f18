/**
 * tests/basic.rs: the integration test's image comparison, the files it expects, and the
 * frame counter that ends the app.
 */
module BasicTest {
  import opened Common
  import Naming
  import Plugin

  function AbsDiff(a: Byte, b: Byte): nat
  {
    if a >= b then a - b else b - a
  }

  /** The sum of the absolute differences of corresponding bytes. */
  function AbsDiffSum(a: seq<Byte>, b: seq<Byte>): nat
    requires |a| == |b|
    decreases |a|
  {
    if |a| == 0 then 0
    else AbsDiffSum(a[..|a| - 1], b[..|b| - 1]) + AbsDiff(a[|a| - 1], b[|b| - 1])
  }

  /** The largest total difference two images may have and still count as equal. */
  const MAX_ERROR: nat := 20

  datatype ImageEqError = LengthMismatch | TooDifferent(error: nat)

  /** The verdict of `assert_image_eq`. */
  function ImageEq(a: seq<Byte>, b: seq<Byte>): (r: Result<(), ImageEqError>)
    ensures r == Err(LengthMismatch) <==> |a| != |b|
    ensures |a| == |b| ==> (r.Ok? <==> AbsDiffSum(a, b) <= MAX_ERROR)
    ensures |a| == |b| && r.Err? ==> r.error == TooDifferent(AbsDiffSum(a, b))
  {
    if |a| != |b| then Err(LengthMismatch)
    else if AbsDiffSum(a, b) > MAX_ERROR then Err(TooDifferent(AbsDiffSum(a, b)))
    else Ok(())
  }

  /** `assert_image_eq`: a length check, then the error summed byte by byte. */
  method AssertImageEq(a: seq<Byte>, b: seq<Byte>) returns (r: Result<(), ImageEqError>)
    ensures r == ImageEq(a, b)
  {
    if |a| != |b| {
      return Err(LengthMismatch);
    }
    var error := 0;
    var i := 0;
    while i < |a|
      invariant i <= |a|
      invariant error == AbsDiffSum(a[..i], b[..i])
      decreases |a| - i
    {
      assert a[..i + 1][..i] == a[..i] && b[..i + 1][..i] == b[..i];
      error := error + AbsDiff(a[i], b[i]);
      i := i + 1;
    }
    assert a[..i] == a && b[..i] == b;
    if error > MAX_ERROR {
      return Err(TooDifferent(error));
    }
    r := Ok(());
  }

  lemma {:induction false} AbsDiffSumSymmetric(a: seq<Byte>, b: seq<Byte>)
    requires |a| == |b|
    ensures AbsDiffSum(a, b) == AbsDiffSum(b, a)
    decreases |a|
  {
    if |a| > 0 {
      AbsDiffSumSymmetric(a[..|a| - 1], b[..|b| - 1]);
    }
  }

  lemma {:induction false} AbsDiffSumSelf(a: seq<Byte>)
    ensures AbsDiffSum(a, a) == 0
    decreases |a|
  {
    if |a| > 0 {
      AbsDiffSumSelf(a[..|a| - 1]);
    }
  }

  /** The comparison does not depend on which image comes first. */
  lemma ImageEqSymmetric(a: seq<Byte>, b: seq<Byte>)
    ensures ImageEq(a, b).Ok? <==> ImageEq(b, a).Ok?
  {
    if |a| == |b| {
      AbsDiffSumSymmetric(a, b);
    }
  }

  /** An image always equals itself. */
  lemma ImageEqReflexive(a: seq<Byte>)
    ensures ImageEq(a, a) == Ok(())
  {
    AbsDiffSumSelf(a);
  }

  /** The number of frames the test renders and checks. */
  const IMAGE_COUNT: u32 := 5

  /** `format!("{:05}.png", i)`. */
  function FileName(i: nat): string
  {
    Naming.Pad5(i) + ".png"
  }

  /** The file names the test checks: `00001.png` up to `{image_count:05}.png`. */
  method ExpectedFilenames(imageCount: u32) returns (names: seq<string>)
    ensures |names| == imageCount
    ensures forall k :: 0 <= k < imageCount ==> names[k] == FileName(k + 1)
  {
    names := [];
    var i: nat := 1;
    while i <= imageCount
      invariant 1 <= i <= imageCount + 1 && |names| == i - 1
      invariant forall k :: 0 <= k < i - 1 ==> names[k] == FileName(k + 1)
      decreases imageCount + 1 - i
    {
      names := names + [FileName(i)];
      i := i + 1;
    }
  }

  /** The expected names are pairwise distinct. */
  lemma ExpectedFilenamesDistinct(i: nat, j: nat)
    requires FileName(i) == FileName(j)
    ensures i == j
  {
    var a, b := FileName(i), FileName(j);
    assert Naming.Pad5(i) == a[..|a| - 4] == b[..|b| - 4] == Naming.Pad5(j);
    Naming.Pad5Injective(i, j);
  }

  /** The file the test opens under `./out/` is the one the plugin writes for that frame with default settings. */
  lemma ExpectedFileIsWritten(frameId: nat)
    ensures Plugin.OutputPath(Plugin.DefaultSettings(), frameId) == "out/" + FileName(frameId)
  {
  }

  /** The test's `update` system with its `Local<u32>` frame counter. */
  class TestApp {
    var frame: u32
    const imageCount: u32

    constructor (imageCount: u32)
      ensures frame == 0 && this.imageCount == imageCount
    {
      frame := 0;
      this.imageCount := imageCount;
    }

    /** Counts the frame (`+= 1` panics on overflow in the test build) and asks to exit once `image_count` frames have run. */
    method Update() returns (exit: bool)
      requires frame + 1 < U32_LIMIT
      modifies this
      ensures frame == old(frame) + 1
      ensures exit <==> frame >= imageCount
    {
      frame := frame + 1;
      exit := frame >= imageCount;
    }
  }

  /** From a fresh app, the exit is first requested on update number `max(image_count, 1)`. */
  method RunUntilExit(app: TestApp) returns (updates: nat)
    requires app.frame == 0 && app.imageCount + 1 < U32_LIMIT
    modifies app
    ensures updates == if app.imageCount == 0 then 1 else app.imageCount
    ensures app.frame == updates
  {
    var exit := app.Update();
    updates := 1;
    while !exit
      invariant app.frame == updates && 1 <= updates
      invariant updates <= app.imageCount || updates == 1
      invariant exit <==> app.frame >= app.imageCount
      decreases app.imageCount - updates
    {
      exit := app.Update();
      updates := updates + 1;
    }
  }
}
