/**
 * The beat-driven editor: which recordings can supply footage at an output frame, where each
 * chosen recording is sought to, how frames are cropped to the output aspect ratio, and the
 * per-frame loop that switches source at frame 0 and at every change frame.
 */
module Editor {
  import opened Results
  import Numbers
  import Offsets

  /** `int(NORM_FPS)`: output frames per second. */
  const NormFps: int := 30
  const OutWidth: int := 1080
  const OutHeight: int := 1920
  /** `OUT_WIDTH / OUT_HEIGHT`, which is exactly 9/16. */
  const OutAspectRatio: real := OutWidth as real / OutHeight as real
  /** How many frames ahead availability is checked when a source is chosen. */
  const Lookahead: int := 10

  datatype Rect = Rect(width: int, height: int)

  /**
   * `calculate_largest_rect`: keep the full height when the 9:16 width fits, else keep the full
   * width. Both branches truncate with `int()`.
   */
  function CalculateLargestRect(maxWidth: nat, maxHeight: nat): (r: Rect)
    ensures 0 <= r.width <= maxWidth && 0 <= r.height <= maxHeight
    ensures 9 * maxHeight < 16 * (maxWidth + 1) ==>
      r.height == maxHeight && 16 * r.width <= 9 * maxHeight < 16 * (r.width + 1)
    ensures 9 * maxHeight >= 16 * (maxWidth + 1) ==>
      r.width == maxWidth && 9 * r.height <= 16 * maxWidth < 9 * (r.height + 1)
  {
    AspectRatioArithmetic(maxWidth, maxHeight);
    var w := Numbers.Trunc(maxHeight as real * OutAspectRatio);
    if w <= maxWidth then Rect(w, maxHeight)
    else Rect(maxWidth, Numbers.Trunc(maxWidth as real / OutAspectRatio))
  }

  /** Both truncations of the crop computation are integer divisions by 16 and by 9. */
  lemma AspectRatioArithmetic(maxWidth: nat, maxHeight: nat)
    ensures Numbers.Trunc(maxHeight as real * OutAspectRatio) == (9 * maxHeight) / 16
    ensures Numbers.Trunc(maxWidth as real / OutAspectRatio) == (16 * maxWidth) / 9
  {
    assert OutAspectRatio == 9.0 / 16.0;
    assert maxHeight as real * OutAspectRatio == (9 * maxHeight) as real / 16 as real;
    assert maxWidth as real / OutAspectRatio == (16 * maxWidth) as real / 9 as real;
    Numbers.TruncOfQuotient(9 * maxHeight, 16);
    Numbers.TruncOfQuotient(16 * maxWidth, 9);
  }

  /** No rectangle of exact 9:16 shape inside the frame is wider or taller than the crop. */
  lemma CalculateLargestRectIsLargest(maxWidth: nat, maxHeight: nat, w: nat, h: nat)
    requires w <= maxWidth && h <= maxHeight && 16 * w == 9 * h
    ensures w <= CalculateLargestRect(maxWidth, maxHeight).width
    ensures h <= CalculateLargestRect(maxWidth, maxHeight).height
  {
  }

  /** A 1920x1080 landscape frame takes the full-height branch: a 607x1080 crop. */
  lemma LandscapeFrameCrop()
    ensures CalculateLargestRect(1920, 1080) == Rect(607, 1080)
  {
  }

  /** A 1080x1920 portrait frame already has the output shape and is kept whole. */
  lemma PortraitFrameCrop()
    ensures CalculateLargestRect(1080, 1920) == Rect(1080, 1920)
  {
  }

  /** Number of videos `zip(start_offsets, finish_offsets)` walks over. */
  function NumVideos(offs: Offsets.OffsetLists): nat {
    if |offs.starts| <= |offs.finishes| then |offs.starts| else |offs.finishes|
  }

  /** `curr_frame / fps + start`: the output frame as a time in the reference, in seconds. */
  function CurrentTime(currFrame: int, start: real): real {
    currFrame as real / NormFps as real + start
  }

  /**
   * The test inside `get_candidate_video_idxs`. Note the unit mix of the source: `finish_frame`
   * is a frame number, added as is to a difference of seconds.
   */
  predicate Available(offs: Offsets.OffsetLists, i: nat, currFrame: int, finishFrame: int, start: real, audioDuration: real)
    requires i < NumVideos(offs)
  {
    var t := CurrentTime(currFrame, start);
    && t + offs.starts[i] >= 0.0
    && audioDuration - offs.finishes[i] - t + finishFrame as real >= 0.0
  }

  /** `get_candidate_video_idxs`: the available indices, in increasing order. */
  method GetCandidateVideoIdxs(offs: Offsets.OffsetLists, currFrame: int, finishFrame: int, start: real, audioDuration: real)
    returns (idxs: seq<nat>)
    ensures forall k :: 0 <= k < |idxs| ==>
      idxs[k] < NumVideos(offs) && Available(offs, idxs[k], currFrame, finishFrame, start, audioDuration)
    ensures forall i :: 0 <= i < NumVideos(offs) && Available(offs, i, currFrame, finishFrame, start, audioDuration) ==> i in idxs
    ensures forall a, b :: 0 <= a < b < |idxs| ==> idxs[a] < idxs[b]
  {
    idxs := [];
    var i := 0;
    while i < NumVideos(offs)
      invariant 0 <= i <= NumVideos(offs)
      invariant forall k :: 0 <= k < |idxs| ==>
        idxs[k] < i && Available(offs, idxs[k], currFrame, finishFrame, start, audioDuration)
      invariant forall j :: 0 <= j < i && Available(offs, j, currFrame, finishFrame, start, audioDuration) ==> j in idxs
      invariant forall a, b :: 0 <= a < b < |idxs| ==> idxs[a] < idxs[b]
    {
      if Available(offs, i, currFrame, finishFrame, start, audioDuration) {
        idxs := idxs + [i];
      }
      i := i + 1;
    }
  }

  /**
   * `start_offset_corrected`: the start offset, kept only for a recording that begins more than
   * `start` seconds before the reference (strict), and 0 otherwise.
   */
  function CorrectedOffset(startOffset: real, start: real): (r: real)
    ensures r <= 0.0
    ensures r == 0.0 || r == startOffset
  {
    if startOffset < 0.0 && -startOffset > start then startOffset else 0.0
  }

  /**
   * For a non-negative `start`, the correction is applied exactly to the recordings whose cut was
   * clamped at their own beginning (`start_offset + start < 0`), and the boundary
   * `-start_offset == start` is not corrected.
   */
  lemma CorrectionExactlyWhenCutClamped(startOffset: real, start: real)
    requires start >= 0.0
    ensures CorrectedOffset(startOffset, start) == startOffset && startOffset != 0.0 <==> startOffset + start < 0.0
    ensures CorrectedOffset(startOffset, start) == 0.0 <==> startOffset + start >= 0.0
    ensures startOffset + start < 0.0 ==> Offsets.StartCut(startOffset, start) == 0.0
  {
  }

  /** `int(frame_rate * start_offset_corrected + frame_idx)`, truncating toward zero. */
  function StartFrame(frameRate: real, corrected: real, frameIdx: int): (r: int)
    ensures frameRate * corrected + frameIdx as real >= 0.0 ==> r >= 0
  {
    Numbers.Trunc(frameRate * corrected + frameIdx as real)
  }

  /** Without a correction the recording is sought to the output frame itself. */
  lemma StartFrameUncorrected(frameRate: real, startOffset: real, start: real, frameIdx: int)
    requires startOffset >= 0.0 || -startOffset <= start
    ensures StartFrame(frameRate, CorrectedOffset(startOffset, start), frameIdx) == frameIdx
  {
  }

  /** A correction never moves the seek point after the output frame. */
  lemma StartFrameNotAfterFrame(frameRate: real, startOffset: real, start: real, frameIdx: int)
    requires frameRate >= 0.0
    ensures StartFrame(frameRate, CorrectedOffset(startOffset, start), frameIdx) <= frameIdx
  {
    var c := CorrectedOffset(startOffset, start);
    assert frameRate * c <= 0.0;
  }

  /** Truncation, not floor: 30 * -0.05 + 1 = -0.5 seeks to frame 0, where floor would give -1. */
  lemma StartFrameTruncatesTowardZero()
    ensures StartFrame(30.0, -0.05, 1) == 0
    ensures (30.0 * -0.05 + 1 as real).Floor == -1
  {
  }

  /**
   * With `start == 0` every recording the availability test admits is sought to a frame >= 0,
   * provided it runs at the output frame rate.
   */
  lemma SeekNonNegativeWhenStartIsZero(offs: Offsets.OffsetLists, i: nat, frameIdx: nat, audioDuration: real)
    requires i < NumVideos(offs)
    requires Available(offs, i, frameIdx, frameIdx + Lookahead, 0.0, audioDuration)
    ensures StartFrame(NormFps as real, CorrectedOffset(offs.starts[i], 0.0), frameIdx) >= 0
  {
    var so := offs.starts[i];
    assert frameIdx as real / 30.0 + so >= 0.0;
    assert 30.0 * so + frameIdx as real == 30.0 * (frameIdx as real / 30.0 + so);
  }

  /**
   * The correction ignores `start`: with start = 30 s, a recording beginning 40 s early passes the
   * availability test at frame 300 and is still sought to frame -900.
   */
  lemma NegativeSeekWhenStartIsPositive()
    ensures Available(Offsets.OffsetLists([-40.0], [0.0]), 0, 300, 300 + Lookahead, 30.0, 100.0)
    ensures StartFrame(NormFps as real, CorrectedOffset(-40.0, 30.0), 300) == -900
  {
  }

  datatype ArgError = TypeError

  /**
   * `check_positive` applied to an already-parsed number: non-negative values pass unchanged;
   * negative ones raise, and because the message has no `%` placeholder the error raised is a
   * `TypeError` from the formatting, not the intended `ArgumentTypeError`.
   */
  function CheckPositive(value: real): (r: Result<real, ArgError>)
    ensures r.Ok? <==> value >= 0.0
    ensures r.Ok? ==> r.value == value
    ensures r.Err? ==> r.error == TypeError
  {
    if value < 0.0 then Err(TypeError) else Ok(value)
  }

  /** Width, height and frame rate of one normalised recording. */
  datatype VideoMeta = VideoMeta(width: nat, height: nat, frameRate: real)

  /** A source chosen at output frame `frame`, sought to `startFrame` of its own clip. */
  datatype Selection = Selection(frame: nat, video: nat, startFrame: int)

  /** An output frame that was read from `video` and cropped to `crop` before resizing. */
  datatype OutFrame = OutFrame(frame: nat, video: nat, crop: Rect)

  datatype Render = Render(selections: seq<Selection>, frames: seq<OutFrame>)

  /** `random.choice` on an empty candidate list raises at this output frame. */
  datatype EditError = NoCandidate(frame: nat)

  /** `not cap or frame_idx in change_frames`: `cap` is unset only before frame 0. */
  predicate IsSwitchFrame(f: int, changeFrames: set<int>) {
    f == 0 || f in changeFrames
  }

  /** `range(int(fps * duration))` has this many frames. */
  function FrameCount(duration: real): nat {
    Numbers.RangeLength(Numbers.Trunc(NormFps as real * duration))
  }

  /** The availability test as `create_video` calls it, looking `Lookahead` frames ahead. */
  predicate AvailableAhead(offs: Offsets.OffsetLists, i: nat, frameIdx: int, start: real, audioDuration: real)
    requires i < NumVideos(offs)
  {
    Available(offs, i, frameIdx, frameIdx + Lookahead, start, audioDuration)
  }

  /**
   * Source `i` is available at output frame `currFrame` exactly when that frame lies in a window:
   * late enough that the clip has started, and early enough that the reference audio, less the
   * clip's trailing offset, plus `finishFrame` units still lies ahead.
   */
  lemma AvailableWindow(offs: Offsets.OffsetLists, i: nat, currFrame: int, finishFrame: int, start: real, audioDuration: real)
    requires i < NumVideos(offs)
    ensures Available(offs, i, currFrame, finishFrame, start, audioDuration)
        <==> && currFrame as real >= NormFps as real * (-offs.starts[i] - start)
             && currFrame as real <= NormFps as real * (audioDuration - offs.finishes[i] - start + finishFrame as real)
  {
  }

  /**
   * With `finish_frame = frame + 10`, as `create_video` calls it, the upper end of the window
   * grows with the frame itself (29/30 of a frame per frame), so far enough into the output the
   * trailing test accepts every source.
   */
  lemma AvailableAheadWindow(offs: Offsets.OffsetLists, i: nat, frameIdx: int, start: real, audioDuration: real)
    requires i < NumVideos(offs)
    ensures AvailableAhead(offs, i, frameIdx, start, audioDuration)
        <==> && frameIdx as real >= NormFps as real * (-offs.starts[i] - start)
             && (NormFps - 1) as real * frameIdx as real
                >= NormFps as real * (offs.finishes[i] + start - audioDuration - Lookahead as real)
  {
    AvailableWindow(offs, i, frameIdx, frameIdx + Lookahead, start, audioDuration);
  }

  ghost predicate HasCandidate(offs: Offsets.OffsetLists, frameIdx: int, start: real, audioDuration: real) {
    exists i :: 0 <= i < NumVideos(offs) && AvailableAhead(offs, i, frameIdx, start, audioDuration)
  }

  /** The source of the last selection made at or before output frame `f`. */
  function ActiveVideo(sels: seq<Selection>, f: int): nat {
    if |sels| == 0 then 0
    else if sels[|sels| - 1].frame <= f then sels[|sels| - 1].video
    else ActiveVideo(sels[..|sels| - 1], f)
  }

  function SelectionFrames(sels: seq<Selection>): set<int> {
    set k | 0 <= k < |sels| :: sels[k].frame as int
  }

  function WrittenFrames(frames: seq<OutFrame>): set<int> {
    set k | 0 <= k < |frames| :: frames[k].frame as int
  }

  /** What a correct selection at its frame is: an available source, sought as the source says. */
  predicate ValidSelection(offs: Offsets.OffsetLists, meta: seq<VideoMeta>, start: real, audioDuration: real, s: Selection)
  {
    && s.video < NumVideos(offs) && s.video < |meta|
    && AvailableAhead(offs, s.video, s.frame, start, audioDuration)
    && s.startFrame == StartFrame(meta[s.video].frameRate, CorrectedOffset(offs.starts[s.video], start), s.frame)
  }

  /**
   * The selection step of `create_video`: the candidates at `frameIdx` looking `Lookahead` frames
   * ahead, any one of them (`random.choice`), and the frame its clip is sought to. `None` stands
   * for the error `choice` raises on an empty list.
   */
  method ChooseSource(offs: Offsets.OffsetLists, meta: seq<VideoMeta>, start: real, audioDuration: real, frameIdx: nat)
    returns (s: Option<Selection>)
    requires |meta| >= NumVideos(offs)
    ensures s.None? <==> !HasCandidate(offs, frameIdx, start, audioDuration)
    ensures s.Some? ==> s.value.frame == frameIdx && ValidSelection(offs, meta, start, audioDuration, s.value)
  {
    var candidates := GetCandidateVideoIdxs(offs, frameIdx, frameIdx + Lookahead, start, audioDuration);
    if |candidates| == 0 {
      return None;
    }
    assert candidates[0] in candidates;
    var v :| v in candidates;
    assert AvailableAhead(offs, v, frameIdx, start, audioDuration);
    return Some(Selection(frameIdx, v, StartFrame(meta[v].frameRate, CorrectedOffset(offs.starts[v], start), frameIdx)));
  }

  /** Selections so far: all before `bound`, at switch frames, valid, in increasing frame order. */
  ghost predicate SelectionsBefore(
    offs: Offsets.OffsetLists, meta: seq<VideoMeta>, start: real, audioDuration: real, changeFrames: set<int>,
    sels: seq<Selection>, bound: nat)
  {
    && (forall k :: 0 <= k < |sels| ==>
          && sels[k].frame < bound
          && IsSwitchFrame(sels[k].frame, changeFrames)
          && ValidSelection(offs, meta, start, audioDuration, sels[k]))
    && (forall a, b :: 0 <= a < b < |sels| ==> sels[a].frame < sels[b].frame)
    && (forall f :: 0 <= f < bound && IsSwitchFrame(f, changeFrames) ==>
          f in SelectionFrames(sels) && HasCandidate(offs, f, start, audioDuration))
  }

  /**
   * Frames written so far: exactly the readable frames before `bound`, in order, each from the
   * source active at it and cropped to that source's shape.
   */
  ghost predicate FramesBefore(meta: seq<VideoMeta>, readOk: nat -> bool, sels: seq<Selection>, frames: seq<OutFrame>, bound: nat)
  {
    && (forall k :: 0 <= k < |frames| ==>
          && frames[k].frame < bound
          && readOk(frames[k].frame)
          && frames[k].video == ActiveVideo(sels, frames[k].frame)
          && frames[k].video < |meta|
          && frames[k].crop == CalculateLargestRect(meta[frames[k].video].width, meta[frames[k].video].height))
    && (forall a, b :: 0 <= a < b < |frames| ==> frames[a].frame < frames[b].frame)
    && (forall f :: 0 <= f < bound && readOk(f) ==> f in WrittenFrames(frames))
  }

  /** The selections made and the frames written so far. */
  datatype Progress = Progress(selections: seq<Selection>, frames: seq<OutFrame>)

  /**
   * One pass of the frame loop of `create_video` at output frame `frameIdx`: at a switch frame a
   * new source is chosen (or the run fails there), then the frame is written from the active
   * source when its read succeeds.
   */
  method Advance(
    offs: Offsets.OffsetLists, meta: seq<VideoMeta>, start: real, audioDuration: real,
    changeFrames: set<int>, readOk: nat -> bool, p: Progress, frameIdx: nat)
    returns (r: Result<Progress, EditError>)
    requires |meta| >= NumVideos(offs)
    requires frameIdx > 0 ==> |p.selections| > 0
    requires SelectionsBefore(offs, meta, start, audioDuration, changeFrames, p.selections, frameIdx)
    requires FramesBefore(meta, readOk, p.selections, p.frames, frameIdx)
    ensures r.Ok? ==> |r.value.selections| > 0
    ensures r.Ok? ==> SelectionsBefore(offs, meta, start, audioDuration, changeFrames, r.value.selections, frameIdx + 1)
    ensures r.Ok? ==> FramesBefore(meta, readOk, r.value.selections, r.value.frames, frameIdx + 1)
    ensures r.Err? ==> r.error == NoCandidate(frameIdx) && IsSwitchFrame(frameIdx, changeFrames)
                       && !HasCandidate(offs, frameIdx, start, audioDuration)
  {
    var sels := p.selections;
    if IsSwitchFrame(frameIdx, changeFrames) {
      var choice := ChooseSource(offs, meta, start, audioDuration, frameIdx);
      if choice.None? {
        return Err(NoCandidate(frameIdx));
      }
      AppendSelection(offs, meta, start, audioDuration, changeFrames, readOk, sels, p.frames, choice.value, frameIdx);
      sels := sels + [choice.value];
    } else {
      SkipSelection(offs, meta, start, audioDuration, changeFrames, sels, frameIdx);
    }
    var video := sels[|sels| - 1].video;
    var frames := p.frames;
    if readOk(frameIdx) {
      var m := meta[video];
      frames := frames + [OutFrame(frameIdx, video, CalculateLargestRect(m.width, m.height))];
    }
    WriteStep(meta, readOk, sels, p.frames, frames, frameIdx, video);
    return Ok(Progress(sels, frames));
  }

  /**
   * The frame loop of `create_video`. `random.choice` is a choice of any candidate; `readOk(f)`
   * says whether the read at output frame `f` delivers a frame; a failed read skips the frame.
   * Sources are (re)selected exactly at frame 0 and at the change frames below the frame count,
   * every selection is available and sought as above, and exactly the readable frames are
   * written; otherwise the run fails at the first switch frame without a candidate.
   */
  method CreateVideo(
    offs: Offsets.OffsetLists, meta: seq<VideoMeta>, start: real, duration: real, audioDuration: real,
    changeFrames: set<int>, readOk: nat -> bool)
    returns (r: Result<Render, EditError>)
    requires |meta| >= NumVideos(offs)
    ensures r.Ok? ==> SelectionsBefore(offs, meta, start, audioDuration, changeFrames, r.value.selections, FrameCount(duration))
    ensures r.Ok? ==> FramesBefore(meta, readOk, r.value.selections, r.value.frames, FrameCount(duration))
    ensures r.Err? ==>
      && r.error.frame < FrameCount(duration)
      && IsSwitchFrame(r.error.frame, changeFrames)
      && !HasCandidate(offs, r.error.frame, start, audioDuration)
      && forall g :: 0 <= g < r.error.frame && IsSwitchFrame(g, changeFrames) ==> HasCandidate(offs, g, start, audioDuration)
  {
    var n := FrameCount(duration);
    var p := Progress([], []);
    var frameIdx: nat := 0;
    while frameIdx < n
      invariant frameIdx <= n
      invariant frameIdx > 0 ==> |p.selections| > 0
      invariant SelectionsBefore(offs, meta, start, audioDuration, changeFrames, p.selections, frameIdx)
      invariant FramesBefore(meta, readOk, p.selections, p.frames, frameIdx)
    {
      var step := Advance(offs, meta, start, audioDuration, changeFrames, readOk, p, frameIdx);
      if step.Err? {
        return Err(step.error);
      }
      p := step.value;
      frameIdx := frameIdx + 1;
    }
    return Ok(Render(p.selections, p.frames));
  }

  /** A frame that is not a switch frame adds no selection. */
  lemma SkipSelection(
    offs: Offsets.OffsetLists, meta: seq<VideoMeta>, start: real, audioDuration: real, changeFrames: set<int>,
    sels: seq<Selection>, bound: nat)
    requires SelectionsBefore(offs, meta, start, audioDuration, changeFrames, sels, bound)
    requires !IsSwitchFrame(bound, changeFrames)
    ensures SelectionsBefore(offs, meta, start, audioDuration, changeFrames, sels, bound + 1)
  {
  }

  /** Writing frame `bound` (when it is readable) from the active source extends the frames by one. */
  lemma WriteStep(
    meta: seq<VideoMeta>, readOk: nat -> bool, sels: seq<Selection>, frames: seq<OutFrame>, frames': seq<OutFrame>,
    bound: nat, video: nat)
    requires FramesBefore(meta, readOk, sels, frames, bound)
    requires |sels| > 0 && sels[|sels| - 1].frame <= bound && sels[|sels| - 1].video == video && video < |meta|
    requires frames' == if readOk(bound)
      then frames + [OutFrame(bound, video, CalculateLargestRect(meta[video].width, meta[video].height))]
      else frames
    ensures FramesBefore(meta, readOk, sels, frames', bound + 1)
  {
    assert ActiveVideo(sels, bound) == video;
    if readOk(bound) {
      var w := OutFrame(bound, video, CalculateLargestRect(meta[video].width, meta[video].height));
      assert frames' == frames + [w];
      forall k | 0 <= k < |frames'|
        ensures frames'[k].frame < bound + 1 && readOk(frames'[k].frame)
        ensures frames'[k].video == ActiveVideo(sels, frames'[k].frame) && frames'[k].video < |meta|
        ensures frames'[k].crop == CalculateLargestRect(meta[frames'[k].video].width, meta[frames'[k].video].height)
      {
        if k < |frames| {
          assert frames'[k] == frames[k];
        } else {
          assert frames'[k] == w;
        }
      }
      forall a, b | 0 <= a < b < |frames'|
        ensures frames'[a].frame < frames'[b].frame
      {
        assert frames'[a] == frames[a];
        if b < |frames| {
          assert frames'[b] == frames[b];
        }
      }
      assert WrittenFrames(frames') == WrittenFrames(frames) + {bound as int} by {
        assert frames'[|frames|] == w;
        assert forall k :: 0 <= k < |frames| ==> frames'[k] == frames[k];
      }
    }
  }

  /** Appending the selection made at `bound` extends both progress predicates by one frame. */
  lemma AppendSelection(
    offs: Offsets.OffsetLists, meta: seq<VideoMeta>, start: real, audioDuration: real, changeFrames: set<int>,
    readOk: nat -> bool, sels: seq<Selection>, frames: seq<OutFrame>, s: Selection, bound: nat)
    requires SelectionsBefore(offs, meta, start, audioDuration, changeFrames, sels, bound)
    requires FramesBefore(meta, readOk, sels, frames, bound)
    requires s.frame == bound && IsSwitchFrame(bound, changeFrames)
    requires ValidSelection(offs, meta, start, audioDuration, s)
    ensures SelectionsBefore(offs, meta, start, audioDuration, changeFrames, sels + [s], bound + 1)
    ensures FramesBefore(meta, readOk, sels + [s], frames, bound)
  {
    AppendSelectionKeepsSelections(offs, meta, start, audioDuration, changeFrames, sels, s, bound);
  }

  /**
   * The new selection is the last, at a frame past all others: the selections stay a valid
   * increasing list; every frame before `bound` keeps its source, and from `bound` on the new
   * selection's source is active.
   */

  lemma AppendSelectionKeepsSelections(
    offs: Offsets.OffsetLists, meta: seq<VideoMeta>, start: real, audioDuration: real, changeFrames: set<int>,
    sels: seq<Selection>, s: Selection, bound: nat)
    requires SelectionsBefore(offs, meta, start, audioDuration, changeFrames, sels, bound)
    requires s.frame == bound && IsSwitchFrame(bound, changeFrames)
    requires ValidSelection(offs, meta, start, audioDuration, s)
    ensures SelectionsBefore(offs, meta, start, audioDuration, changeFrames, sels + [s], bound + 1)
    ensures forall f :: f < bound ==> ActiveVideo(sels + [s], f) == ActiveVideo(sels, f)
    ensures forall f :: f >= bound ==> ActiveVideo(sels + [s], f) == s.video
  {
    var sels' := sels + [s];
    assert sels'[..|sels|] == sels;
    assert HasCandidate(offs, bound, start, audioDuration) by {
      assert AvailableAhead(offs, s.video, bound, start, audioDuration);
    }
    assert SelectionFrames(sels') == SelectionFrames(sels) + {bound as int} by {
      assert sels'[|sels|].frame == bound;
      assert forall k :: 0 <= k < |sels| ==> sels'[k] == sels[k];
    }
  }
}
