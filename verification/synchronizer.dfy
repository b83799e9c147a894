/**
 * Offset estimation: each recording's audio is aligned to the reference audio by the peak of
 * their full cross-correlation. Samples are integers and the correlation is its direct sum; the
 * FFT evaluation and floating-point rounding of the program are not part of this model.
 */
module Synchronizer {
  import opened Results

  datatype SyncError =
    | EmptyAudio        // a correlation over an empty buffer has no peak to take
    | MissingReference  // the path list has no last element to use as the reference

  /** Start and end offsets of one recording, in samples at the normalised rate. */
  datatype OffsetPair = OffsetPair(start: int, end: int)

  function Abs(x: int): nat {
    if x < 0 then -x else x
  }

  /** `s[::-1]` */
  function Reverse(s: seq<int>): (r: seq<int>)
    ensures |r| == |s|
    ensures forall i :: 0 <= i < |s| ==> r[i] == s[|s| - 1 - i]
  {
    seq(|s|, i requires 0 <= i < |s| => s[|s| - 1 - i])
  }

  /** `b[j]` inside the buffer, zero outside it (the zero padding of a linear convolution). */
  function Tap(b: seq<int>, j: int): int {
    if 0 <= j < |b| then b[j] else 0
  }

  /** Entry `k` of the full linear convolution of `a` and `b`: the sum of `a[i] * b[k - i]`. */
  function ConvAt(a: seq<int>, b: seq<int>, k: int): int
  {
    if |a| == 0 then 0
    else ConvAt(a[..|a| - 1], b, k) + a[|a| - 1] * Tap(b, k - (|a| - 1))
  }

  /** `fftconvolve(a, b, mode="full")` for non-empty inputs. */
  function FullConvolution(a: seq<int>, b: seq<int>): (r: seq<int>)
    requires |a| > 0 && |b| > 0
    ensures |r| == |a| + |b| - 1
  {
    seq(|a| + |b| - 1, k => ConvAt(a, b, k))
  }

  /**
   * Cross-correlation of `target` against `reference` at lag `d`: the sum of
   * `target[i] * reference[i - d]`, i.e. sample `i` of the target lined up with sample `i - d`
   * of the reference.
   */
  function CorrelationAtLag(target: seq<int>, reference: seq<int>, d: int): int
  {
    if |target| == 0 then 0
    else CorrelationAtLag(target[..|target| - 1], reference, d) + target[|target| - 1] * Tap(reference, |target| - 1 - d)
  }

  /** Convolving with the reversed reference computes the cross-correlation, shifted by `|reference| - 1`. */
  lemma {:induction false} ConvolutionWithReversedIsCorrelation(target: seq<int>, reference: seq<int>, k: int)
    ensures ConvAt(target, Reverse(reference), k) == CorrelationAtLag(target, reference, k - (|reference| - 1))
  {
    if |target| > 0 {
      ConvolutionWithReversedIsCorrelation(target[..|target| - 1], reference, k);
    }
  }

  function Magnitudes(s: seq<int>): (r: seq<nat>)
    ensures |r| == |s|
  {
    seq(|s|, i requires 0 <= i < |s| => Abs(s[i]))
  }

  /** `np.argmax(s)`: the first index holding the maximum. */
  function FirstArgMax(s: seq<nat>): (k: nat)
    requires |s| > 0
    ensures k < |s|
    ensures forall j :: 0 <= j < |s| ==> s[j] <= s[k]
    ensures forall j :: 0 <= j < k ==> s[j] < s[k]
  {
    if |s| == 1 then 0
    else
      var k := FirstArgMax(s[..|s| - 1]);
      if s[|s| - 1] > s[k] then |s| - 1 else k
  }

  /** Smallest and largest lag the full correlation covers. */
  function MinLag(reference: seq<int>): int { -(|reference| - 1) }
  function MaxLag(target: seq<int>): int { |target| - 1 }

  /**
   * `d` is the first lag, scanning upward from the most negative one, at which the magnitude of
   * the correlation is largest.
   */
  ghost predicate IsFirstPeakLag(target: seq<int>, reference: seq<int>, d: int)
  {
    && MinLag(reference) <= d <= MaxLag(target)
    && (forall e :: MinLag(reference) <= e <= MaxLag(target) ==>
          Abs(CorrelationAtLag(target, reference, e)) <= Abs(CorrelationAtLag(target, reference, d)))
    && (forall e :: MinLag(reference) <= e < d ==>
          Abs(CorrelationAtLag(target, reference, e)) < Abs(CorrelationAtLag(target, reference, d)))
  }

  /** At most one lag is the first peak. */
  lemma FirstPeakLagUnique(target: seq<int>, reference: seq<int>, d1: int, d2: int)
    requires IsFirstPeakLag(target, reference, d1) && IsFirstPeakLag(target, reference, d2)
    ensures d1 == d2
  {
    var c1 := Abs(CorrelationAtLag(target, reference, d1));
    var c2 := Abs(CorrelationAtLag(target, reference, d2));
    assert c1 == c2;
    assert d1 < d2 ==> c1 < c2;
    assert d2 < d1 ==> c2 < c1;
  }

  /**
   * `find_audio_offset`: the index of the largest |full correlation of target with reversed
   * reference|, minus `len(reference) - 1`. An empty buffer makes the correlation empty and
   * `argmax` raise.
   */
  function FindAudioOffset(reference: seq<int>, target: seq<int>): (r: Result<int, SyncError>)
    ensures r.Err? <==> |reference| == 0 || |target| == 0
    ensures r.Err? ==> r.error == EmptyAudio
    ensures r.Ok? ==> MinLag(reference) <= r.value <= MaxLag(target)
  {
    if |reference| == 0 || |target| == 0 then Err(EmptyAudio)
    else
      var k := FirstArgMax(Magnitudes(FullConvolution(target, Reverse(reference))));
      Ok(k - (|reference| - 1))
  }

  /** The offset is exactly the first peak lag of the cross-correlation, and nothing else is. */
  lemma {:induction false} OffsetIsFirstPeakLag(reference: seq<int>, target: seq<int>, d: int)
    requires |reference| > 0 && |target| > 0
    ensures FindAudioOffset(reference, target) == Ok(d) <==> IsFirstPeakLag(target, reference, d)
  {
    var mags := Magnitudes(FullConvolution(target, Reverse(reference)));
    var k := FirstArgMax(mags);
    var off := k - (|reference| - 1);
    forall e | MinLag(reference) <= e <= MaxLag(target)
      ensures mags[e + |reference| - 1] == Abs(CorrelationAtLag(target, reference, e))
    {
      ConvolutionWithReversedIsCorrelation(target, reference, e + |reference| - 1);
    }
    assert mags[k] == Abs(CorrelationAtLag(target, reference, off));
    assert IsFirstPeakLag(target, reference, off);
    if IsFirstPeakLag(target, reference, d) {
      FirstPeakLagUnique(target, reference, d, off);
    }
  }

  /** All-zero target: every correlation vanishes, so the first lag wins. */
  lemma {:induction false} SilentTargetCorrelation(target: seq<int>, reference: seq<int>, d: int)
    requires forall i :: 0 <= i < |target| ==> target[i] == 0
    ensures CorrelationAtLag(target, reference, d) == 0
  {
    if |target| > 0 {
      SilentTargetCorrelation(target[..|target| - 1], reference, d);
    }
  }

  /** An all-silent recording is placed at the most negative lag, `-(len(reference) - 1)`. */
  lemma SilentTargetOffset(reference: seq<int>, target: seq<int>)
    requires |reference| > 0 && |target| > 0
    requires forall i :: 0 <= i < |target| ==> target[i] == 0
    ensures FindAudioOffset(reference, target) == Ok(-(|reference| - 1))
  {
    forall e | MinLag(reference) <= e <= MaxLag(target)
      ensures CorrelationAtLag(target, reference, e) == 0
    {
      SilentTargetCorrelation(target, reference, e);
    }
    SilentTargetCorrelation(target, reference, MinLag(reference));
    OffsetIsFirstPeakLag(reference, target, MinLag(reference));
  }

  /**
   * `run`: one `(start, end)` pair per recording, in input order; the first empty buffer aborts.
   * The end offset is derived so that start + length + end is the reference length.
   */
  function Run(reference: seq<int>, audios: seq<seq<int>>): (r: Result<seq<OffsetPair>, SyncError>)
    ensures r.Ok? <==> |audios| == 0 || (|reference| > 0 && forall i :: 0 <= i < |audios| ==> |audios[i]| > 0)
    ensures r.Ok? ==> |r.value| == |audios|
    ensures r.Ok? ==> forall i :: 0 <= i < |audios| ==>
      && FindAudioOffset(reference, audios[i]) == Ok(r.value[i].start)
      && r.value[i].start + |audios[i]| + r.value[i].end == |reference|
  {
    if |audios| == 0 then Ok([])
    else
      match FindAudioOffset(reference, audios[0])
      case Err(e) => Err(e)
      case Ok(start) =>
        match Run(reference, audios[1..])
        case Err(e) => Err(e)
        case Ok(rest) =>
          Ok([OffsetPair(start, |reference| - (|audios[0]| + start))] + rest)
  }

  /**
   * The constructor followed by `run`: every path but the last is a recording to align, the
   * last one is the reference. `load` stands for reading a normalised audio file.
   */
  function Synchronize(paths: seq<string>, load: string -> seq<int>): (r: Result<seq<OffsetPair>, SyncError>)
    ensures |paths| == 0 ==> r == Err(MissingReference)
    ensures r.Ok? ==> |r.value| == |paths| - 1
    ensures r.Ok? ==> forall i :: 0 <= i < |paths| - 1 ==>
      && FindAudioOffset(load(paths[|paths| - 1]), load(paths[i])) == Ok(r.value[i].start)
      && r.value[i].start + |load(paths[i])| + r.value[i].end == |load(paths[|paths| - 1])|
  {
    if |paths| == 0 then Err(MissingReference)
    else Run(load(paths[|paths| - 1]), seq(|paths| - 1, i requires 0 <= i < |paths| - 1 => load(paths[i])))
  }

  /** Appending a path makes it the reference; it is never aligned against itself. */
  lemma LastPathIsReference(paths: seq<string>, reference: string, load: string -> seq<int>)
    ensures Synchronize(paths + [reference], load)
         == Run(load(reference), seq(|paths|, i requires 0 <= i < |paths| => load(paths[i])))
  {
    var all := paths + [reference];
    assert all[|all| - 1] == reference;
    assert seq(|all| - 1, i requires 0 <= i < |all| - 1 => load(all[i]))
        == seq(|paths|, i requires 0 <= i < |paths| => load(paths[i]));
  }
}
