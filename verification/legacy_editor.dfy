/**
 * The older round-robin editor: the output is cut into 5-second segments, segment `k` starts at
 * second `5k`, takes source `k mod n` and copies up to `frame_rate * 5` frames from frame
 * `frame_rate * 5k` of that source, stopping at the first failed read.
 */
module LegacyEditor {
  import opened Results

  /** `segment_duration`, in seconds. */
  const SegmentDuration: int := 5

  /**
   * One pass of the segment loop: the segment's start second, its source, the frame it seeks to,
   * how many frames it may write and how many it did write.
   */
  datatype Segment = Segment(start: int, video: nat, startFrame: int, budget: nat, written: nat)

  /** `(idx // segment_duration) % len(video_paths)` with no videos divides by zero. */
  datatype LegacyError = ZeroDivision

  /** What segment `k` must be, given each source's integer frame rate and which reads succeed. */
  ghost predicate SegmentOk(frameRates: seq<nat>, readOk: (nat, nat) -> bool, k: nat, s: Segment)
  {
    && s.start == SegmentDuration * k
    && |frameRates| > 0
    && s.video == k % |frameRates|
    && s.startFrame == frameRates[s.video] * s.start
    && s.budget == frameRates[s.video] * SegmentDuration
    && s.written <= s.budget
    && (forall i :: 0 <= i < s.written ==> readOk(k, i))
    && (s.written < s.budget ==> !readOk(k, s.written))
  }

  /**
   * The inner `for` loop: read and write until `budget` frames are written or a read fails.
   * `readOk(k, i)` says whether the `i`-th read of segment `k` delivers a frame.
   */
  method CopySegmentFrames(k: nat, budget: nat, readOk: (nat, nat) -> bool) returns (written: nat)
    ensures written <= budget
    ensures forall i :: 0 <= i < written ==> readOk(k, i)
    ensures written < budget ==> !readOk(k, written)
  {
    written := 0;
    while written < budget
      invariant written <= budget
      invariant forall i :: 0 <= i < written ==> readOk(k, i)
    {
      if !readOk(k, written) {
        return;
      }
      written := written + 1;
    }
  }

  /**
   * The segment loop of `create_video`. Segment starts are the multiples of 5 below the
   * duration, so there are `ceil(duration / 5)` segments and the last one keeps its full
   * `frame_rate * 5` budget even when it runs past the requested duration.
   */
  method CreateVideo(videoDuration: int, frameRates: seq<nat>, readOk: (nat, nat) -> bool)
    returns (r: Result<seq<Segment>, LegacyError>)
    ensures r.Err? <==> |frameRates| == 0 && videoDuration > 0
    ensures r.Ok? && videoDuration <= 0 ==> |r.value| == 0
    ensures r.Ok? && videoDuration > 0 ==>
      SegmentDuration * (|r.value| - 1) < videoDuration <= SegmentDuration * |r.value|
    ensures r.Ok? ==> forall k :: 0 <= k < |r.value| ==> SegmentOk(frameRates, readOk, k, r.value[k])
  {
    var segments: seq<Segment> := [];
    var idx := 0;
    while idx < videoDuration
      invariant idx == SegmentDuration * |segments|
      invariant |segments| > 0 ==> SegmentDuration * (|segments| - 1) < videoDuration
      invariant |segments| > 0 ==> |frameRates| > 0
      invariant forall k :: 0 <= k < |segments| ==> SegmentOk(frameRates, readOk, k, segments[k])
    {
      if |frameRates| == 0 {
        return Err(ZeroDivision);
      }
      var k := |segments|;
      assert idx / SegmentDuration == k;
      var video := (idx / SegmentDuration) % |frameRates|;
      var frameRate := frameRates[video];
      var startFrame := frameRate * idx;
      var budget := frameRate * SegmentDuration;
      var written := CopySegmentFrames(k, budget, readOk);
      segments := segments + [Segment(idx, video, startFrame, budget, written)];
      idx := idx + SegmentDuration;
    }
    return Ok(segments);
  }

  /** Sources rotate: each segment takes the source after the previous one's, wrapping at `n`. */
  lemma {:induction false} RoundRobinRotates(frameRates: seq<nat>, readOk: (nat, nat) -> bool, segments: seq<Segment>, k: nat)
    requires forall j :: 0 <= j < |segments| ==> SegmentOk(frameRates, readOk, j, segments[j])
    requires k + 1 < |segments| && |frameRates| > 0
    ensures segments[k + 1].video == (segments[k].video + 1) % |frameRates|
  {
    var n := |frameRates|;
    assert SegmentOk(frameRates, readOk, k, segments[k]);
    assert SegmentOk(frameRates, readOk, k + 1, segments[k + 1]);
    var q := k / n;
    var m := k % n;
    assert k == q * n + m;
    if m + 1 < n {
      ModUnique(k + 1, n, q, m + 1);
      ModUnique(m + 1, n, 0, m + 1);
    } else {
      ModUnique(k + 1, n, q + 1, 0);
      ModUnique(m + 1, n, 1, 0);
    }
  }

  lemma ModUnique(a: int, n: int, q: int, m: int)
    requires n > 0 && a == q * n + m && 0 <= m < n
    ensures a % n == m
  {
    var d := q - a / n;
    assert d * n == a % n - m;
    SmallMultipleIsZero(d, n);
  }

  lemma SmallMultipleIsZero(d: int, n: int)
    requires n > 0 && -n < d * n < n
    ensures d == 0
  {
    assert d >= 1 ==> d * n == n + (d - 1) * n;
    assert d >= 1 ==> (d - 1) * n >= 0;
    assert d <= -1 ==> d * n == -n - (-d - 1) * n;
    assert d <= -1 ==> (-d - 1) * n >= 0;
  }
}
