/**
 * Offset bookkeeping that both file-manager variants perform identically: converting the sample
 * offsets of the synchroniser to seconds, and clamping the start of each video cut at zero.
 */
module Offsets {
  import Synchronizer

  /** `int(NORM_SR)`: every audio is normalised to 8000 samples per second. */
  const NormSampleRate: int := 8000

  /** The two lists `set_offsets` stores: start and finish offsets in seconds, per video. */
  datatype OffsetLists = OffsetLists(starts: seq<real>, finishes: seq<real>)

  /** `set_offsets`: divide every sample offset by the sample rate, keeping length and order. */
  function SetOffsets(pairs: seq<Synchronizer.OffsetPair>): (r: OffsetLists)
    ensures |r.starts| == |pairs| && |r.finishes| == |pairs|
    ensures forall i :: 0 <= i < |pairs| ==>
      && r.starts[i] * NormSampleRate as real == pairs[i].start as real
      && r.finishes[i] * NormSampleRate as real == pairs[i].end as real
  {
    OffsetLists(
      seq(|pairs|, i requires 0 <= i < |pairs| => pairs[i].start as real / NormSampleRate as real),
      seq(|pairs|, i requires 0 <= i < |pairs| => pairs[i].end as real / NormSampleRate as real))
  }

  /**
   * The synchroniser's identity `start + length + end == reference length` survives the
   * conversion to seconds exactly.
   */
  lemma SetOffsetsKeepsDurationIdentity(pairs: seq<Synchronizer.OffsetPair>, lengths: seq<nat>, referenceLength: nat, i: nat)
    requires |lengths| == |pairs| && i < |pairs|
    requires pairs[i].start + lengths[i] + pairs[i].end == referenceLength
    ensures SetOffsets(pairs).starts[i] + lengths[i] as real / NormSampleRate as real + SetOffsets(pairs).finishes[i]
         == referenceLength as real / NormSampleRate as real
  {
    var r := SetOffsets(pairs);
    var sr := NormSampleRate as real;
    assert r.starts[i] == pairs[i].start as real / sr;
    assert r.finishes[i] == pairs[i].end as real / sr;
    assert (pairs[i].start + lengths[i] + pairs[i].end) as real / sr
        == pairs[i].start as real / sr + lengths[i] as real / sr + pairs[i].end as real / sr;
  }

  /** `max(0.0, start_offset + start)`: where the cut of a video begins, in its own seconds. */
  function StartCut(startOffset: real, start: real): (r: real)
    ensures r >= 0.0 && r >= startOffset + start
    ensures r == 0.0 || r == startOffset + start
  {
    if startOffset + start > 0.0 then startOffset + start else 0.0
  }
}
