/**
 * The path bookkeeping of the current file manager: where inputs are found, which files each
 * conversion step reads and writes, and the cut parameters derived from the offsets. The
 * conversions themselves are external; each is modelled as the job it queues.
 */
module FileManager {
  import opened Results
  import Text
  import Paths
  import Offsets
  import Synchronizer

  const AudioFolder: string := "Audio"
  const VideoFolder: string := "Videos"
  const NormAudioFolder: string := "NormAudio"
  const NormVideoFolder: string := "NormVideo"
  const VideoSyncFolder: string := "VideoSync"

  datatype FileError =
    | NoReferenceAudio                        // the audio folder is empty: `[0]` raises
    | SyncFailed(cause: Synchronizer.SyncError)

  /** Folders and inputs fixed by the constructor. */
  datatype State = State(baseFolder: string, tempFolder: string, audioFilepath: string, videoFilepaths: seq<string>)

  /** One queued conversion: read `input`, write `output`. */
  datatype Job = Job(input: string, output: string)

  /** One queued cut: `duration` seconds of `input` from second `startCut`, written to `output`. */
  datatype CutJob = CutJob(input: string, output: string, startCut: real, duration: real)

  /** The outcome of `cut_videos_based_on_offsets`. */
  datatype CutPlan = CutPlan(
    syncAudioPath: string, audioJob: CutJob, videoJobs: seq<CutJob>,
    syncVideoPaths: seq<string>, offsets: Offsets.OffsetLists)

  /** `_get_filepaths`: `join(base, folder, name)` for every listed name, in listing order. */
  function GetFilepaths(baseFolder: string, folder: string, names: seq<string>): (r: seq<string>)
    ensures |r| == |names|
    ensures forall i :: 0 <= i < |names| ==> r[i] == Paths.PathJoin(Paths.PathJoin(baseFolder, folder), names[i])
  {
    seq(|names|, i requires 0 <= i < |names| => Paths.PathJoin(Paths.PathJoin(baseFolder, folder), names[i]))
  }

  /** A listed name is recovered as the last component of its path. */
  lemma FilepathKeepsName(baseFolder: string, folder: string, names: seq<string>, i: nat)
    requires i < |names| && '/' !in names[i]
    ensures Paths.LastComponent(GetFilepaths(baseFolder, folder, names)[i]) == names[i]
  {
    Paths.LastComponentOfJoin(Paths.PathJoin(baseFolder, folder), names[i]);
  }

  /**
   * The path part of the constructor, given the two folder listings and the temporary folder
   * `mkdtemp` created: the first audio file is the reference, the videos are sorted.
   */
  function Init(baseFolder: string, tempFolder: string, audioNames: seq<string>, videoNames: seq<string>): (r: Result<State, FileError>)
    ensures r.Err? <==> |audioNames| == 0
    ensures r.Ok? ==>
      && r.value.audioFilepath == Paths.PathJoin(Paths.PathJoin(baseFolder, AudioFolder), audioNames[0])
      && Text.Sorted(r.value.videoFilepaths)
      && multiset(r.value.videoFilepaths) == multiset(GetFilepaths(baseFolder, VideoFolder, videoNames))
  {
    if |audioNames| == 0 then Err(NoReferenceAudio)
    else
      Ok(State(baseFolder, tempFolder, GetFilepaths(baseFolder, AudioFolder, audioNames)[0],
               Text.SortStrings(GetFilepaths(baseFolder, VideoFolder, videoNames))))
  }

  /** For each input, a job writing `join(outFolder, <stem of its base name> + ext)`, in input order. */
  function RenameJobs(inputs: seq<string>, outFolder: string, ext: string): (r: seq<Job>)
    ensures |r| == |inputs|
    ensures forall i :: 0 <= i < |inputs| ==>
      r[i] == Job(inputs[i], Paths.PathJoin(outFolder, Paths.OutputName(inputs[i], ext)))
  {
    seq(|inputs|, i requires 0 <= i < |inputs| => Job(inputs[i], Paths.PathJoin(outFolder, Paths.OutputName(inputs[i], ext))))
  }

  /** Every renamed output sits directly in `outFolder`, named by the input's stem and `ext`. */
  lemma RenamedOutputInFolder(inputs: seq<string>, outFolder: string, ext: string, i: nat)
    requires i < |inputs| && '/' !in ext
    ensures Paths.LastComponent(RenameJobs(inputs, outFolder, ext)[i].output) == Paths.OutputName(inputs[i], ext)
  {
    Paths.StemHasNoSlash(inputs[i]);
    Paths.LastComponentOfJoin(outFolder, Paths.OutputName(inputs[i], ext));
  }

  function Outputs(jobs: seq<Job>): (r: seq<string>)
    ensures |r| == |jobs|
    ensures forall i :: 0 <= i < |jobs| ==> r[i] == jobs[i].output
  {
    seq(|jobs|, i requires 0 <= i < |jobs| => jobs[i].output)
  }

  /** Where `create_normalized_audiofiles` writes the `.wav` conversion of `path`. */
  function WavPath(st: State, path: string): string {
    Paths.PathJoin(Paths.PathJoin(st.tempFolder, NormAudioFolder), Paths.OutputName(path, ".wav"))
  }

  /**
   * `create_normalized_audiofiles`: a `.wav` conversion of every video, then of the reference
   * audio, so that the reference comes last.
   */
  function NormalizedAudioJobs(st: State): (r: seq<Job>)
    ensures |r| == |st.videoFilepaths| + 1
    ensures r[|r| - 1] == Job(st.audioFilepath, WavPath(st, st.audioFilepath))
    ensures forall i :: 0 <= i < |st.videoFilepaths| ==> r[i] == Job(st.videoFilepaths[i], WavPath(st, st.videoFilepaths[i]))
  {
    var inputs := st.videoFilepaths + [st.audioFilepath];
    assert inputs[|inputs| - 1] == st.audioFilepath;
    assert forall i :: 0 <= i < |st.videoFilepaths| ==> inputs[i] == st.videoFilepaths[i];
    RenameJobs(inputs, Paths.PathJoin(st.tempFolder, NormAudioFolder), ".wav")
  }

  /** `normalized_audiopaths`: the converted videos in order, then the converted reference. */
  function NormalizedAudioPaths(st: State): (r: seq<string>)
    ensures |r| == |st.videoFilepaths| + 1
    ensures r[|r| - 1] == WavPath(st, st.audioFilepath)
    ensures forall i :: 0 <= i < |st.videoFilepaths| ==> r[i] == WavPath(st, st.videoFilepaths[i])
  {
    var jobs := NormalizedAudioJobs(st);
    var r := Outputs(jobs);
    assert r[|r| - 1] == jobs[|jobs| - 1].output;
    r
  }

  /** The `.wav` conversions of `paths`, in order. */
  function WavPaths(st: State, paths: seq<string>): (r: seq<string>)
    ensures |r| == |paths|
    ensures forall i :: 0 <= i < |paths| ==> r[i] == WavPath(st, paths[i])
  {
    seq(|paths|, i requires 0 <= i < |paths| => WavPath(st, paths[i]))
  }

  /**
   * The order `create_normalized_audiofiles` writes is the one the synchroniser assumes: the
   * converted videos in order, and the converted reference audio last, where
   * `Synchronizer.LastPathIsReference` makes it the reference.
   */
  lemma ReferenceAudioIsLast(st: State)
    ensures NormalizedAudioPaths(st) == WavPaths(st, st.videoFilepaths) + [WavPath(st, st.audioFilepath)]
  {
    var paths := NormalizedAudioPaths(st);
    var expected := WavPaths(st, st.videoFilepaths) + [WavPath(st, st.audioFilepath)];
    assert |paths| == |expected|;
    forall i | 0 <= i < |paths|
      ensures paths[i] == expected[i]
    {
    }
  }

  /** `normalize_sync_videofiles`: an `.mp4` conversion of every cut video, same length and order. */
  function NormalizeSyncVideoJobs(st: State, syncVideoPaths: seq<string>): (r: seq<Job>)
    ensures |r| == |syncVideoPaths|
    ensures forall i :: 0 <= i < |syncVideoPaths| ==>
      && r[i].input == syncVideoPaths[i]
      && r[i].output == Paths.PathJoin(Paths.PathJoin(st.tempFolder, NormVideoFolder), Paths.OutputName(syncVideoPaths[i], ".mp4"))
  {
    RenameJobs(syncVideoPaths, Paths.PathJoin(st.tempFolder, NormVideoFolder), ".mp4")
  }

  /** `cut_audio_based_on_offsets`: the reference audio cut from `start` for `duration` seconds. */
  function CutAudioJob(outFolder: string, audioFilepath: string, start: real, duration: real): (r: CutJob)
    ensures r.input == audioFilepath && r.startCut == start && r.duration == duration
  {
    CutJob(audioFilepath, Paths.PathJoin(outFolder, Paths.OutputName(audioFilepath, ".wav")), start, duration)
  }

  function Min(a: nat, b: nat): nat {
    if a <= b then a else b
  }

  /**
   * The loop over `zip(video_filepaths, start_offsets)`: one cut per pair, in order, starting at
   * `max(0, start_offset + start)` of the video.
   */
  function CutVideoJobs(videos: seq<string>, starts: seq<real>, outFolder: string, start: real, duration: real): (r: seq<CutJob>)
    ensures |r| == Min(|videos|, |starts|)
    ensures forall i :: 0 <= i < |r| ==>
      && r[i].input == videos[i]
      && r[i].output == Paths.PathJoin(outFolder, Paths.OutputName(videos[i], ".mp4"))
      && r[i].startCut == Offsets.StartCut(starts[i], start)
      && r[i].startCut >= 0.0
      && r[i].duration == duration
  {
    seq(Min(|videos|, |starts|), i requires 0 <= i < Min(|videos|, |starts|) =>
      CutJob(videos[i], Paths.PathJoin(outFolder, Paths.OutputName(videos[i], ".mp4")), Offsets.StartCut(starts[i], start), duration))
  }

  function CutOutputs(jobs: seq<CutJob>): (r: seq<string>)
    ensures |r| == |jobs|
    ensures forall i :: 0 <= i < |jobs| ==> r[i] == jobs[i].output
  {
    seq(|jobs|, i requires 0 <= i < |jobs| => jobs[i].output)
  }

  /**
   * `cut_videos_based_on_offsets`: synchronise the normalised audio, store the offsets in
   * seconds, cut the reference audio and every video, and return the stored offset lists.
   * `load` stands for reading a normalised audio file.
   */
  function CutVideosBasedOnOffsets(st: State, load: string -> seq<int>, start: real, duration: real): (r: Result<CutPlan, FileError>)
    ensures r.Err? <==> Synchronizer.Synchronize(NormalizedAudioPaths(st), load).Err?
    ensures r.Ok? ==>
      var pairs := Synchronizer.Synchronize(NormalizedAudioPaths(st), load).value;
      && r.value.offsets == Offsets.SetOffsets(pairs)
      && |r.value.videoJobs| == |st.videoFilepaths|
      && r.value.syncVideoPaths == CutOutputs(r.value.videoJobs)
      && r.value.audioJob.input == st.audioFilepath
      && r.value.audioJob.startCut == start
      && r.value.audioJob.duration == duration
      && forall i :: 0 <= i < |st.videoFilepaths| ==>
           && r.value.videoJobs[i].input == st.videoFilepaths[i]
           && r.value.videoJobs[i].duration == duration
           && r.value.videoJobs[i].startCut == Offsets.StartCut(r.value.offsets.starts[i], start)
           && r.value.videoJobs[i].startCut * Offsets.NormSampleRate as real >= (pairs[i].start as real + start * Offsets.NormSampleRate as real)
  {
    match Synchronizer.Synchronize(NormalizedAudioPaths(st), load)
    case Err(e) => Err(SyncFailed(e))
    case Ok(pairs) =>
      var offs := Offsets.SetOffsets(pairs);
      var outFolder := Paths.PathJoin(st.tempFolder, VideoSyncFolder);
      var audioJob := CutAudioJob(outFolder, st.audioFilepath, start, duration);
      var videoJobs := CutVideoJobs(st.videoFilepaths, offs.starts, outFolder, start, duration);
      Ok(CutPlan(audioJob.output, audioJob, videoJobs, CutOutputs(videoJobs), offs))
  }
}
