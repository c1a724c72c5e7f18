/** Output file naming: Rust's `format!("{}/{:05}.{}", dir, frame_id, extension)`. */
module Naming {
  import opened Common

  predicate IsDigit(c: char) { '0' <= c <= '9' }

  predicate AllDigits(s: string) { forall i :: 0 <= i < |s| ==> IsDigit(s[i]) }

  function DigitChar(d: nat): (c: char)
    requires d < 10
    ensures IsDigit(c)
  {
    "0123456789"[d]
  }

  function DigitValue(c: char): (d: nat)
    requires IsDigit(c)
    ensures d < 10
  {
    (c as int) - ('0' as int)
  }

  /** Rust's `{}` for an unsigned integer: the shortest decimal representation. */
  function Decimal(n: nat): (s: string)
    ensures 1 <= |s| && AllDigits(s)
    decreases n
  {
    if n < 10 then [DigitChar(n)] else Decimal(n / 10) + [DigitChar(n % 10)]
  }

  function Zeros(k: nat): (s: string)
    ensures |s| == k && AllDigits(s)
    ensures forall i :: 0 <= i < k ==> s[i] == '0'
  {
    seq(k, _ => '0')
  }

  /** Rust's `{:05}` for an unsigned integer: zero padding up to a minimum width of five. */
  function Pad5(n: nat): (s: string)
    ensures AllDigits(s)
  {
    var d := Decimal(n);
    if |d| < 5 then Zeros(5 - |d|) + d else d
  }

  /** Reads a string of decimal digits back into a number; leading zeros are allowed. */
  function ParseDecimal(s: string): nat
    requires AllDigits(s)
  {
    if s == [] then 0 else 10 * ParseDecimal(s[..|s| - 1]) + DigitValue(s[|s| - 1])
  }

  /** The path of the image file for one frame. */
  function FramePath(outputDir: string, frameId: nat, extension: string): (path: string)
    ensures |path| == |outputDir| + 1 + |Pad5(frameId)| + 1 + |extension|
    ensures path[..|outputDir|] == outputDir && path[|outputDir|] == '/'
    ensures path[|outputDir| + 1 .. |path| - |extension| - 1] == Pad5(frameId)
    ensures path[|path| - |extension| - 1] == '.' && path[|path| - |extension|..] == extension
  {
    outputDir + "/" + Pad5(frameId) + "." + extension
  }

  /** Reads the frame id back out of a path built by FramePath for the same directory and extension. */
  function FrameIdOfPath(outputDir: string, extension: string, path: string): Option<nat>
  {
    if |path| < |outputDir| + 2 + |extension| then None
    else
      var name := path[|outputDir| + 1 .. |path| - |extension| - 1];
      if AllDigits(name) then Some(ParseDecimal(name)) else None
  }

  lemma {:induction false} ParseDecimalOfDecimal(n: nat)
    ensures ParseDecimal(Decimal(n)) == n
    decreases n
  {
    if n >= 10 {
      var s := Decimal(n);
      assert s[..|s| - 1] == Decimal(n / 10);
      ParseDecimalOfDecimal(n / 10);
    }
  }

  lemma {:induction false} ParseZeros(k: nat)
    ensures ParseDecimal(Zeros(k)) == 0
  {
    if k > 0 {
      assert Zeros(k)[..k - 1] == Zeros(k - 1);
      ParseZeros(k - 1);
    }
  }

  lemma {:induction false} ParseLeadingZeros(k: nat, d: string)
    requires AllDigits(d)
    ensures AllDigits(Zeros(k) + d)
    ensures ParseDecimal(Zeros(k) + d) == ParseDecimal(d)
    decreases |d|
  {
    var s := Zeros(k) + d;
    assert AllDigits(s) by {
      forall i | 0 <= i < |s| ensures IsDigit(s[i]) {
        if i >= k { assert s[i] == d[i - k]; }
      }
    }
    if d == [] {
      assert s == Zeros(k);
      ParseZeros(k);
    } else {
      assert s[..|s| - 1] == Zeros(k) + d[..|d| - 1];
      ParseLeadingZeros(k, d[..|d| - 1]);
    }
  }

  /** `{:05}` keeps every digit: the padded string still denotes the same number. */
  lemma Pad5RoundTrip(n: nat)
    ensures ParseDecimal(Pad5(n)) == n
  {
    var d := Decimal(n);
    ParseDecimalOfDecimal(n);
    if |d| < 5 {
      ParseLeadingZeros(5 - |d|, d);
    }
  }

  /** `{:05}` pads to at least five characters and never truncates: the plain decimal is a suffix. */
  lemma Pad5Shape(n: nat)
    ensures |Pad5(n)| == if |Decimal(n)| < 5 then 5 else |Decimal(n)|
    ensures Pad5(n)[|Pad5(n)| - |Decimal(n)|..] == Decimal(n)
    ensures forall i :: 0 <= i < |Pad5(n)| - |Decimal(n)| ==> Pad5(n)[i] == '0'
  {
  }

  lemma Pad5Injective(a: nat, b: nat)
    requires Pad5(a) == Pad5(b)
    ensures a == b
  {
    Pad5RoundTrip(a);
    Pad5RoundTrip(b);
  }

  /** `{:05}` pads short numbers with zeros... */
  lemma Pad5Examples()
    ensures Pad5(1) == "00001"
    ensures Pad5(42) == "00042"
  {
    assert Decimal(1) == "1";
    assert Decimal(4) == "4";
    assert Decimal(42) == "42";
  }

  /** ...and keeps every digit of a number wider than five digits. */
  lemma Pad5NeverTruncates()
    ensures Pad5(123456) == "123456"
  {
    assert Decimal(12) == "12" by { assert Decimal(1) == "1"; }
    assert Decimal(123) == "123";
    assert Decimal(1234) == "1234";
    assert Decimal(12345) == "12345";
    assert Decimal(123456) == "123456";
  }

  /** The frame id can be read back from the path: distinct frames get distinct files. */
  lemma FramePathRoundTrip(outputDir: string, frameId: nat, extension: string)
    ensures FrameIdOfPath(outputDir, extension, FramePath(outputDir, frameId, extension)) == Some(frameId)
  {
    var p := FramePath(outputDir, frameId, extension);
    var name := Pad5(frameId);
    assert |p| == |outputDir| + 1 + |name| + 1 + |extension|;
    assert p[|outputDir| + 1 .. |p| - |extension| - 1] == name;
    Pad5RoundTrip(frameId);
  }

  lemma FramePathInjective(outputDir: string, extension: string, a: nat, b: nat)
    requires FramePath(outputDir, a, extension) == FramePath(outputDir, b, extension)
    ensures a == b
  {
    FramePathRoundTrip(outputDir, a, extension);
    FramePathRoundTrip(outputDir, b, extension);
  }
}
