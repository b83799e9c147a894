/**
 * The older file manager. Input discovery, the `.wav` conversion list and the offset conversion
 * are the same as in the current one (module FileManager); this module models what differs: the
 * fixed temporary folder, the video cuts lasting as long as the cut audio, and the selection of
 * the videos that get a black padding image.
 */
module LegacyFileManager {
  import opened Results
  import Paths
  import Offsets
  import Synchronizer
  import FileManager

  /**
   * The constructor's paths. The temporary folder is `join(base, TMP_FOLDER)`; the name is a
   * parameter because the constants file imported next to this one does not define it.
   */
  function Init(baseFolder: string, tmpFolderName: string, audioNames: seq<string>, videoNames: seq<string>)
    : (r: Result<FileManager.State, FileManager.FileError>)
    ensures r.Err? <==> |audioNames| == 0
    ensures r.Ok? ==> r.value.tempFolder == Paths.PathJoin(baseFolder, tmpFolderName)
    ensures r.Ok? ==> r.value.videoFilepaths == FileManager.Init(baseFolder, r.value.tempFolder, audioNames, videoNames).value.videoFilepaths
  {
    FileManager.Init(baseFolder, Paths.PathJoin(baseFolder, tmpFolderName), audioNames, videoNames)
  }

  /**
   * `cut_videos_based_on_offsets`: like the current version, but every video cut lasts
   * `probedDuration`, the duration `get_audio_duration` reports for the cut reference audio,
   * rather than the requested `duration`.
   */
  function CutVideosBasedOnOffsets(st: FileManager.State, load: string -> seq<int>, start: real, duration: real, probedDuration: real)
    : (r: Result<FileManager.CutPlan, FileManager.FileError>)
    ensures r.Err? <==> Synchronizer.Synchronize(FileManager.NormalizedAudioPaths(st), load).Err?
    ensures r.Ok? ==>
      && r.value.offsets == Offsets.SetOffsets(Synchronizer.Synchronize(FileManager.NormalizedAudioPaths(st), load).value)
      && r.value.audioJob.startCut == start && r.value.audioJob.duration == duration
      && |r.value.videoJobs| == |st.videoFilepaths|
      && forall i :: 0 <= i < |st.videoFilepaths| ==>
           && r.value.videoJobs[i].input == st.videoFilepaths[i]
           && r.value.videoJobs[i].startCut == Offsets.StartCut(r.value.offsets.starts[i], start)
           && r.value.videoJobs[i].duration == probedDuration
  {
    match Synchronizer.Synchronize(FileManager.NormalizedAudioPaths(st), load)
    case Err(e) => Err(FileManager.SyncFailed(e))
    case Ok(pairs) =>
      var offs := Offsets.SetOffsets(pairs);
      var outFolder := Paths.PathJoin(st.tempFolder, FileManager.VideoSyncFolder);
      var audioJob := FileManager.CutAudioJob(outFolder, st.audioFilepath, start, duration);
      var videoJobs := FileManager.CutVideoJobs(st.videoFilepaths, offs.starts, outFolder, start, probedDuration);
      Ok(FileManager.CutPlan(audioJob.output, audioJob, videoJobs, FileManager.CutOutputs(videoJobs), offs))
  }

  /** Width, height and frame rate of a source video. */
  datatype Resolution = Resolution(width: nat, height: nat, frameRate: real)

  /** A black image of the video's size, to be written at `path`. */
  datatype BlackImage = BlackImage(video: nat, path: string, width: nat, height: nat)

  /** The strict test of `add_padding_based_on_offsets`. */
  predicate NeedsPadding(startOffset: real, start: real, audioDuration: real) {
    startOffset + start > -audioDuration
  }

  function Min3(a: nat, b: nat, c: nat): (m: nat)
    ensures m <= a && m <= b && m <= c
    ensures m == a || m == b || m == c
  {
    if a <= b && a <= c then a else if b <= c then b else c
  }

  /** The black image for video `i`: its size, named after its cut video with a `.png` extension. */
  function ImageFor(folder: string, syncPaths: seq<string>, resolutions: seq<Resolution>, i: nat): BlackImage
    requires i < |syncPaths| && i < |resolutions|
  {
    BlackImage(i, Paths.PathJoin(folder, Paths.OutputName(syncPaths[i], ".png")), resolutions[i].width, resolutions[i].height)
  }

  /** The loop over `zip(sync_videopaths, start_offsets, videos_resolution)`: selected indices from `i` on, below `n`. */
  function PaddingIndices(starts: seq<real>, n: nat, start: real, audioDuration: real, i: nat): (r: seq<nat>)
    requires i <= n <= |starts|
    ensures forall k :: 0 <= k < |r| ==> i <= r[k] < n && NeedsPadding(starts[r[k]], start, audioDuration)
    ensures forall a, b :: 0 <= a < b < |r| ==> r[a] < r[b]
    ensures forall j :: i <= j < n && NeedsPadding(starts[j], start, audioDuration) ==> j in r
    decreases n - i
  {
    if i == n then []
    else
      var rest := PaddingIndices(starts, n, start, audioDuration, i + 1);
      if NeedsPadding(starts[i], start, audioDuration) then [i] + rest else rest
  }

  /**
   * `add_padding_based_on_offsets`: a black image, named after the cut video, for exactly those
   * videos with `start_offset + start > -audio_duration`, in order.
   */
  function AddPaddingBasedOnOffsets(
    st: FileManager.State, blackFolderName: string, syncPaths: seq<string>, starts: seq<real>,
    resolutions: seq<Resolution>, start: real, audioDuration: real): (r: seq<BlackImage>)
    ensures forall k :: 0 <= k < |r| ==>
      && r[k].video < Min3(|syncPaths|, |starts|, |resolutions|)
      && NeedsPadding(starts[r[k].video], start, audioDuration)
      && r[k] == ImageFor(Paths.PathJoin(st.tempFolder, blackFolderName), syncPaths, resolutions, r[k].video)
    ensures forall a, b :: 0 <= a < b < |r| ==> r[a].video < r[b].video
    ensures forall j :: 0 <= j < Min3(|syncPaths|, |starts|, |resolutions|) && NeedsPadding(starts[j], start, audioDuration) ==>
      exists k :: 0 <= k < |r| && r[k].video == j
  {
    var folder := Paths.PathJoin(st.tempFolder, blackFolderName);
    var n := Min3(|syncPaths|, |starts|, |resolutions|);
    var idx := PaddingIndices(starts, n, start, audioDuration, 0);
    var r := seq(|idx|, k requires 0 <= k < |idx| => ImageFor(folder, syncPaths, resolutions, idx[k]));
    assert forall k :: 0 <= k < |idx| ==> r[k].video == idx[k];
    EveryIndexHasImage(idx, r);
    r
  }

  lemma EveryIndexHasImage(idx: seq<nat>, r: seq<BlackImage>)
    requires |r| == |idx|
    requires forall k :: 0 <= k < |idx| ==> r[k].video == idx[k]
    ensures forall j :: j in idx ==> exists k :: 0 <= k < |r| && r[k].video == j
  {
    forall j | j in idx
      ensures exists k :: 0 <= k < |r| && r[k].video == j
    {
      var k :| 0 <= k < |idx| && idx[k] == j;
      assert r[k].video == j;
    }
  }
}
