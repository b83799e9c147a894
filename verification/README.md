# VideoEditor in Dafny

A Dafny model of the core of VideoEditor. The program takes several recordings of one event and
a reference audio track, and makes a single edited video from them:

1. **Synchronizer.** Every recording's audio is aligned to the reference. The offset is the lag
   with the largest magnitude of full cross-correlation, computed in the source as a convolution
   with the reversed reference.
2. **File manager.** Both variants find the inputs and plan the `.wav` and `.mp4` conversions.
   They turn sample offsets into seconds and cut every recording from `max(0, offset + start)`.
   The older variant also picks the recordings that get a black padding image.
3. **Editor.**
   - The current, beat-driven editor switches source at frame 0 and at every change frame. It
     picks any recording available ten frames ahead, seeks it, and writes each readable frame
     cropped to the 9:16 output shape.
   - The older editor rotates through the sources in 5-second segments.
4. **FFmpeg wrapper.**
   - It renders the command lines `ffmpeg -loglevel error -i "<in>" <params> "<out>" <-y|-n>`.
   - It reads the first `Duration: H:M:S.f` out of ffmpeg's report.

## Layout

| file | module | models |
|---|---|---|
| results.dfy | Results | `Result` and `Option` for Python's exceptions and missing values |
| numbers.dfy | Numbers | `int()` truncation, `range` length, decimal digits, `str(int)` and `int(str)` |
| text.dfy | Text | `" ".join`, `split`, first and last index, string order and `sorted()` |
| paths.dfy | Paths | `os.path.join`, and the output-name rewrite `split("/")[-1].rsplit(".", 1)[0] + ext` |
| synchronizer.dfy | Synchronizer | `Synchronizer.py` |
| offsets.dfy | Offsets | `set_offsets` and the `start_cut` clamp, which both file managers share |
| file_manager.dfy | FileManager | `videoeditor/FileManager.py` |
| legacy_file_manager.dfy | LegacyFileManager | `FileManager.py` |
| editor.dfy | Editor | `videoeditor/VideoEditor.py` |
| legacy_editor.dfy | LegacyEditor | `VideoEditor.py` |
| ffmpeg.dfy | Ffmpeg | `FfmpegWraper.py` |

How the model represents the program:

- Audio samples are integers. The correlation is its direct sum.
- Seconds are exact reals. Python's `int()` on a real truncates toward zero, and the model writes
  that out (`Numbers.Trunc`).
- Exceptions become `Err` values:
  - `np.argmax` of an empty correlation;
  - `audio_paths[-1]` or `_get_filepaths(...)[0]` on an empty list;
  - `random.choice([])`;
  - the modulo by zero sources in the older editor;
  - the `TypeError` of `check_positive`.
- `random.choice` becomes Dafny's arbitrary choice (`:|`). The contracts hold whichever
  candidate is picked.
- Reading an audio file is a parameter `load`. Whether a frame read succeeds is a parameter
  `readOk`. Each ffmpeg conversion is the job or command line it queues.

## Model

| member | source | states |
|---|---|---|
| Synchronizer.Reverse | Synchronizer.py:18 | `reference_audio[::-1]` has the same length and holds sample `n-1-i` at position `i` |
| Synchronizer.ConvolutionWithReversedIsCorrelation | Synchronizer.py:16-19 | entry `k` of the full convolution of the target with the reversed reference is the cross-correlation at lag `k - (len(reference) - 1)` |
| Synchronizer.FullConvolution | Synchronizer.py:17-19 | a full convolution has `len(a) + len(b) - 1` entries |
| Synchronizer.FirstArgMax | Synchronizer.py:20 | `np.argmax` returns an index whose value no entry exceeds, and every earlier entry is strictly smaller, so ties go to the first maximum |
| Synchronizer.FindAudioOffset | Synchronizer.py:15-21 | raises (EmptyAudio) exactly when either buffer is empty; otherwise the offset lies between `-(len(reference)-1)` and `len(target)-1` |
| Synchronizer.OffsetIsFirstPeakLag | Synchronizer.py:15-21 | the offset is the lag of largest absolute correlation, the most negative such lag when several tie; no other lag is returned |
| Synchronizer.FirstPeakLagUnique | Synchronizer.py:20 | at most one lag satisfies the first-peak description, so the offset is determined by the two buffers |
| Synchronizer.SilentTargetCorrelation | Synchronizer.py:17-19 | an all-zero recording correlates to 0 with the reference at every lag |
| Synchronizer.SilentTargetOffset | Synchronizer.py:20 | an all-silent recording gets the most negative offset, `-(len(reference)-1)` |
| Synchronizer.Run | Synchronizer.py:39-44 | one pair per recording in input order; fails exactly when some recording, or the reference while there are recordings, is empty; each start is that recording's offset and start + its length + end equals the reference length |
| Synchronizer.Synchronize | Synchronizer.py:7-9 | an empty path list has no reference and fails; otherwise every path but the last is aligned against the last, one pair each |
| Synchronizer.LastPathIsReference | Synchronizer.py:8-9 | appending a path makes it the reference, and the paths before it are the recordings aligned to it |
| Offsets.SetOffsets | videoeditor/FileManager.py:63-69 | one start and one finish per pair, in order, each equal to the sample count divided by 8000 |
| Offsets.SetOffsetsKeepsDurationIdentity | FileManager.py:48-51 | the identity start + length + end = reference length still holds exactly once all three are in seconds |
| Offsets.StartCut | videoeditor/FileManager.py:189-192 | the cut starts at a non-negative second, no earlier than `start_offset + start`, and is either 0 or exactly that sum |
| Numbers.TruncOfQuotient | videoeditor/VideoEditor.py:53-60 | `int()` of a non-negative quotient of integers is integer division |
| Numbers.NatToStringRoundTrip | FfmpegWraper.py:61-63 | reading the digits of `str(n)` back gives `n` |
| Numbers.IntToStringRoundTrip | FfmpegWraper.py:61-63 | `int(str(i)) == i` for every integer, negative ones included |
| Numbers.Trunc | videoeditor/VideoEditor.py:53-60 | Python's `int()` on a float truncates toward zero: it rounds non-negative values down and negative values up, by less than one |
| Numbers.DecimalValue | FfmpegWraper.py:89 | `float("S.f")` lies between the integer `S` and `S + 1` |
| Numbers.DigitsValueAppend | FfmpegWraper.py:89 | reading the digits `a + b` gives `a`'s value shifted left by `len(b)` places plus `b`'s value |
| Numbers.DecimalValueExact | FfmpegWraper.py:89 | `float("S.f")` is exactly the integer the digits `S` and `f` spell together, divided by `10^len(f)` |
| Text.SplitJoin | FfmpegWraper.py:23 | splitting a space-joined list of space-free words at spaces gives the list back |
| Text.LessEqTotal | videoeditor/FileManager.py:29 | any two strings are ordered one way or the other by Python's string comparison |
| Text.Insert | videoeditor/FileManager.py:29 | inserting into a sorted list keeps it sorted, adds exactly the one element and keeps all others |
| Text.SortStrings | videoeditor/FileManager.py:29 | `sorted()` returns a sorted permutation of its input |
| Paths.LastComponentShape | videoeditor/FileManager.py:83 | `split("/")[-1]` is slash-free, ends the path, and follows a slash unless it is the whole path |
| Paths.LastComponentOfJoin | videoeditor/FileManager.py:49-55 | `join(dir, name)` of a slash-free name ends in that name as its last component |
| Paths.StemShape | videoeditor/FileManager.py:83-86 | `rsplit(".", 1)[0]` drops exactly the last dot and the dot-free suffix after it, and keeps a dotless name whole |
| Paths.OutputNameReplacesLastExtension | videoeditor/FileManager.py:81-88 | `dir/a.b.c` becomes `a.b` + the new extension: only the folder and the last extension go |
| Paths.OutputNameKeepsDotlessName | videoeditor/FileManager.py:81-88 | a dotless base name is kept whole in front of the new extension |
| Paths.StemHasNoSlash | videoeditor/FileManager.py:83-86 | the stem of the last component contains no slash, so the output lands directly in the output folder |
| Paths.OutputNameIdempotent | FileManager.py:70 | renaming an already renamed file with the same extension changes nothing |
| FileManager.GetFilepaths | videoeditor/FileManager.py:45-61 | one path per listed name, in listing order, each under `base/folder` |
| FileManager.FilepathKeepsName | videoeditor/FileManager.py:45-61 | a listed slash-free name is recovered as the last component of its path |
| FileManager.Init | videoeditor/FileManager.py:26-29 | fails exactly when the audio folder is empty; otherwise the reference is the first listed audio, and the video paths are sorted and are exactly the listed ones |
| FileManager.RenamedOutputInFolder | videoeditor/FileManager.py:80-88 | every converted file's last component is the input's stem plus the new extension |
| FileManager.NormalizedAudioJobs | videoeditor/FileManager.py:80-93 | one `.wav` conversion per video in order, then one for the reference audio |
| FileManager.NormalizedAudioPaths | videoeditor/FileManager.py:79-94 | the converted videos come first, in order, and the converted reference audio is last |
| FileManager.ReferenceAudioIsLast | videoeditor/FileManager.py:80-94 | the normalised list is the converted videos followed by the converted reference, which is the order the synchroniser takes its reference from |
| FileManager.NormalizeSyncVideoJobs | videoeditor/FileManager.py:105-122 | one `.mp4` conversion per cut video, in order, each written to the normalised-video folder under the cut video's stem with the `.mp4` extension |
| FileManager.CutAudioJob | videoeditor/FileManager.py:127-148 | the reference audio is cut from `start` for `duration` seconds |
| FileManager.CutVideoJobs | videoeditor/FileManager.py:173-199 | one cut per video that has an offset (zip stops at the shorter list); each starts at a non-negative second given by the clamp and lasts the requested duration |
| FileManager.CutVideosBasedOnOffsets | videoeditor/FileManager.py:153-207 | fails exactly when synchronisation fails; otherwise it returns the offsets in seconds, cuts the reference audio from `start` for `duration` seconds, and makes one cut per video in order, each lasting `duration` seconds and starting no earlier in samples than the synchroniser's offset plus `start` |
| LegacyFileManager.Init | FileManager.py:22-28 | fails exactly when the audio folder is empty; the temporary folder is `join(base, TMP_FOLDER)`, and the videos are as in the current variant |
| LegacyFileManager.CutVideosBasedOnOffsets | FileManager.py:99-142 | as the current variant, but every video cut lasts the probed duration of the cut audio rather than the requested one |
| LegacyFileManager.Min3 | FileManager.py:153 | `zip` of three lists stops at the shortest one |
| LegacyFileManager.PaddingIndices | FileManager.py:153-161 | exactly the indices whose `start_offset + start > -audio_duration`, in increasing order |
| LegacyFileManager.AddPaddingBasedOnOffsets | FileManager.py:149-161 | one black image for exactly those recordings that pass the strict padding test, in order, with that recording's size, named after its cut video with `.png` |
| LegacyFileManager.EveryIndexHasImage | FileManager.py:153-161 | every selected index has an image |
| Editor.CalculateLargestRect | videoeditor/VideoEditor.py:51-61 | the crop fits in the frame; if the 9:16 width fits, the full height is kept and the width is `floor(9h/16)`, otherwise the full width is kept and the height is `floor(16w/9)` |
| Editor.AspectRatioArithmetic | videoeditor/VideoEditor.py:29 | with `1080/1920 = 9/16`, both `int()` truncations are integer divisions by 16 and by 9 |
| Editor.CalculateLargestRectIsLargest | videoeditor/VideoEditor.py:51-61 | no exact 9:16 rectangle inside the frame is wider or taller than the crop |
| Editor.LandscapeFrameCrop | videoeditor/VideoEditor.py:51-56 | a 1920x1080 frame is cropped to 607x1080 |
| Editor.PortraitFrameCrop | videoeditor/VideoEditor.py:51-56 | a 1080x1920 frame is kept whole |
| Editor.GetCandidateVideoIdxs | videoeditor/VideoEditor.py:63-76 | the result holds exactly the indices that pass both availability tests, in increasing order |
| Editor.CorrectedOffset | videoeditor/VideoEditor.py:110-114 | the corrected offset is never positive, and is either 0 or the offset itself |
| Editor.CorrectionExactlyWhenCutClamped | videoeditor/VideoEditor.py:110-114 | for `start >= 0`, the offset is kept exactly for the recordings whose cut was clamped at 0 |
| Editor.StartFrame | videoeditor/VideoEditor.py:116 | a non-negative seek expression gives a non-negative start frame |
| Editor.StartFrameUncorrected | videoeditor/VideoEditor.py:110-116 | without a correction the recording is sought to the output frame itself |
| Editor.StartFrameNotAfterFrame | videoeditor/VideoEditor.py:110-116 | a correction never moves the seek after the output frame |
| Editor.StartFrameTruncatesTowardZero | videoeditor/VideoEditor.py:116 | `int()` rounds `-0.5` to frame 0, where floor would give -1 |
| Editor.SeekNonNegativeWhenStartIsZero | videoeditor/VideoEditor.py:100-116 | with `start == 0`, any admitted 30 fps recording is sought to a frame >= 0 |
| Editor.NegativeSeekWhenStartIsPositive | videoeditor/VideoEditor.py:100-116 | with `start = 30`, a recording beginning 40 s early is admitted at frame 300 and sought to frame -900 |
| Editor.CheckPositive | videoeditor/VideoEditor.py:139-143 | non-negative values pass unchanged; every negative value raises, and the error is a TypeError |
| Editor.ChooseSource | videoeditor/VideoEditor.py:100-116 | fails exactly when no recording is available ten frames ahead; otherwise it picks an available recording and seeks it as the offset correction says |
| Editor.Advance | videoeditor/VideoEditor.py:95-129 | one frame step keeps the loop's invariant; it fails only at a switch frame with no candidate |
| Editor.CreateVideo | videoeditor/VideoEditor.py:93-129 | on success, every switch frame before `int(30 * duration)` has exactly one valid selection, and exactly the readable frames are written, each from the source active there and with that source's crop; on failure, the failing frame is the first switch frame without a candidate |
| Editor.SkipSelection | videoeditor/VideoEditor.py:96 | a frame that is not a switch frame leaves the selections valid one frame further |
| Editor.WriteStep | videoeditor/VideoEditor.py:122-129 | writing or skipping the current frame keeps "exactly the readable frames so far, from the active source" |
| Editor.AvailableWindow | videoeditor/VideoEditor.py:63-76 | source `i` is available at a frame exactly when the frame lies between the clip's start and the end bound the source computes (audio length minus the clip's trailing offset, plus `finish_frame`) |
| Editor.AvailableAheadWindow | videoeditor/VideoEditor.py:63-76 | with `finish_frame = frame + 10`, the end bound grows with the frame, so far enough into the output the trailing test accepts every source |
| Editor.AppendSelection | videoeditor/VideoEditor.py:96-116 | a new selection at a switch frame keeps the selection invariant one frame further |
| Editor.AppendSelectionKeepsSelections | videoeditor/VideoEditor.py:96-116 | a selection made at the next switch frame keeps the selections valid and in increasing frame order; it does not change which source is active at earlier frames, and its source is active from its frame on |
| LegacyEditor.CopySegmentFrames | VideoEditor.py:59-62 | writes at most `frame_rate * 5` frames; all of them read successfully, and it stops short only at a failed read |
| LegacyEditor.CreateVideo | VideoEditor.py:46-66 | fails (division by zero) exactly when there are no sources and the duration is positive; otherwise it makes `ceil(duration / 5)` segments, and segment k takes source `k mod n` from frame `frame_rate * 5k` |
| LegacyEditor.RoundRobinRotates | VideoEditor.py:49 | consecutive segments take consecutive sources, wrapping after the last |
| Ffmpeg.NewWrapper | FfmpegWraper.py:17-26 | a new wrapper keeps its force flag and has no paths, so `create_command` fails whatever the parameters |
| Ffmpeg.FormatCommand | FfmpegWraper.py:12-26 | the filled template starts with the fixed `ffmpeg -loglevel error -i "` prefix and the input path, and ends with the force flag |
| Ffmpeg.ParseFormatRoundTrip | FfmpegWraper.py:12-26 | the filled template can be read back into its input path, parameter list, output path and force flag, for quote-free paths and space-free parameters |
| Ffmpeg.WordsOfJoin | FfmpegWraper.py:23 | the space-joined parameters split back into the same list |
| Ffmpeg.ParseMiddleOk | FfmpegWraper.py:13 | the output path is the text after the last quote |
| Ffmpeg.ClosingFlagOk | FfmpegWraper.py:13 | a command ends in a closing quote, a space and the force flag |
| Ffmpeg.ParseBodyOk | FfmpegWraper.py:13 | reading the command's closing quote and flag leaves the parameters and output to read |
| Ffmpeg.ParseAfterPrefixOk | FfmpegWraper.py:13 | the input path ends at the first quote |
| Ffmpeg.CreateCommand | FfmpegWraper.py:20-26 | fails exactly when a path has not been set; otherwise the command reads back as the current paths, the parameters and `-y`/`-n` following the force setting |
| Ffmpeg.Build | FfmpegWraper.py:28-30 | the wrapper keeps the paths just set, and the command reads back as exactly those paths and parameters |
| Ffmpeg.BuildForgetsEarlierPaths | FfmpegWraper.py:28-30 | a command depends only on the latest paths set, not on any earlier ones |
| Ffmpeg.ToWav | FfmpegWraper.py:28-40 | the command reads back as the paths and `-vn -acodec pcm_s16le -ar 8000 -ac 1` |
| Ffmpeg.ToMp4 | FfmpegWraper.py:42-52 | the command reads back as the paths and `-an -vcodec libx264 -r 30` |
| Ffmpeg.CutAudioParameters | FfmpegWraper.py:59-70 | every word, the rendered numbers included, is non-empty and space-free, so the parameter list survives the space join |
| Ffmpeg.CutAudio | FfmpegWraper.py:54-71 | the seek and length words read back as the given integers, and the remaining words are the codec flags |
| Ffmpeg.DigitRun | FfmpegWraper.py:83 | a greedy `\d+` takes only digits and stops in front of a non-digit or at the end |
| Ffmpeg.DigitRunAppend | FfmpegWraper.py:83 | a greedy `\d+` runs through a digit prefix and continues into what follows |
| Ffmpeg.DigitField | FfmpegWraper.py:83 | a field read is non-empty digits followed by its separator |
| Ffmpeg.DigitFieldOf | FfmpegWraper.py:83 | a digit field followed by a non-digit separator is read back exactly |
| Ffmpeg.FractionField | FfmpegWraper.py:83 | the fraction is non-empty digits, and no digit follows it |
| Ffmpeg.FractionFieldOf | FfmpegWraper.py:83 | the fraction swallows every digit that follows it |
| Ffmpeg.MatchFields | FfmpegWraper.py:83 | a match of `\d+:\d+:\d+\.\d+` is three separated digit fields and a fraction that no digit follows |
| Ffmpeg.MatchFieldsFinds | FfmpegWraper.py:83 | wherever the fields occur, they are found, with the fraction taken greedily |
| Ffmpeg.MatchHereShape | FfmpegWraper.py:83 | a match is the tag, well-formed fields and text that does not continue the fraction |
| Ffmpeg.MatchHereFinds | FfmpegWraper.py:83 | wherever the pattern occurs, it is found, with the fraction taken greedily |
| Ffmpeg.MatchHereExact | FfmpegWraper.py:83 | a match followed by a non-digit is read back field for field |
| Ffmpeg.NoMatchBeforeTag | FfmpegWraper.py:83 | no match starts in front of anything but a `D` |
| Ffmpeg.FirstMatchFrom | FfmpegWraper.py:82-85 | `findall(...)[0]` is the leftmost match: a match sits there and none before; none at all when it finds nothing |
| Ffmpeg.DurationSeconds | FfmpegWraper.py:85-90 | `H*3600 + M*60 + float("S.f")` lies between the whole seconds and one second more |
| Ffmpeg.DurationSecondsExact | FfmpegWraper.py:85-90 | the duration is exactly the hours and minutes in seconds plus the digits `S` and `f` read together and divided by `10^len(f)` |
| Ffmpeg.DurationSecondsSample | FfmpegWraper.py:85-90 | `Duration: 00:01:02.50` is 62.5 seconds |
| Ffmpeg.AudioDuration | FfmpegWraper.py:82-91 | there is no duration exactly when the report holds no match anywhere |
| Ffmpeg.AudioDurationAtFirstMatch | FfmpegWraper.py:82-91 | whatever comes before or after it, the leftmost match of a report decides the duration |
| Ffmpeg.AudioDurationOfReport | FfmpegWraper.py:82-91 | when the leftmost match starts at `Duration: ` with fields `f`, the duration is their value in seconds; the fraction takes in any digits that follow it, and when a non-digit follows it is exactly `f`'s value |
| Ffmpeg.NoMatchWithoutTag | FfmpegWraper.py:82-84 | no match starts inside text that holds no `D`, so such text in front of a match does not change the result |

## Left out

- FFT evaluation, float samples and rounding: the correlation is the exact sum over integer samples. `fftconvolve` and `np.argmax` agree with it up to floating-point error, and that error is not modelled.
- Reading sound files (`soundfile.read`): a `load` parameter stands for it.
- Listing folders (`listdir`), `mkdtemp`, `mkdir`, `exists` and `rmtree`: the listings and the temporary folder are parameters. The order of `listdir` is whatever the parameter gives.
- Running ffmpeg (`subprocess.run`, `run_current_batch`) is not modelled. Each conversion is the job or command line it would queue, and the report `get_audio_duration` reads is a parameter.
- Ffmpeg.AudioDuration: `get_audio_duration` loops until a report holds a match. That loop need not end, and is not modelled. The model returns `None` for a report without a match, where the source would probe again.
- OpenCV is not modelled: capture objects, `VideoWriter`, `resize` and the pixel crop. A frame read is the `readOk` parameter. Written frames are records of their source and crop rectangle.
- Editor.FramesBefore: `readOk` is keyed by the output frame only. In the source, whether `cap.read()` succeeds depends on the open capture (which source, and how far it has been read since the last seek); the model allows any such pattern but does not tie it to the capture.
- `create_black_image`, with its `breakpoint()`, and the image write: padding is the list of black-image records to write.
- `get_candidate_change_frames`, `MultiTake` and the beat detection behind it: the change frames are a parameter.
- `get_video_metadata` and `get_width_height_framerate`: the sizes and frame rates are parameters.
- `cut_video`, `get_width_height_framerate`, `join_video_and_audio` and `run_current_batch` are not part of this model. The file managers call them, but FfmpegWraper.py does not define them. Video cuts are therefore the `CutJob` records.
- `video_audio_to_instavideo` (both file managers) only calls `join_video_and_audio` and `run_current_batch`, so it is left out with them.
- The file managers construct `FFmpegWrapper()` without the `force_recreation` argument that this FfmpegWraper.py requires. The model takes the wrapper's force setting as given.
- `TMP_FOLDER` and `BLACK_PNG_FOLDER` are imported by FileManager.py, but the accompanying constants.py does not define them. Their names are parameters.
- Editor.ChooseSource: requires metadata for every recording (`|meta| >= NumVideos`). This is an assumption of the model: `get_video_metadata` is not part of this model, so what it does for a missing recording is not modelled.
- Editor.Advance: has the same metadata requirement as Editor.ChooseSource.
- Editor.CreateVideo: has the same metadata requirement as Editor.ChooseSource.
- Editor.CheckPositive: takes the already-parsed number. The `float(value)` parse of the argument string, its ValueError and NaN are left out.
- Editor.CalculateLargestRect: uses exact rationals. For frame sizes of practical magnitude, the float products `h * 0.5625` and `w / 0.5625` truncate to the same integers.
- Offsets.SetOffsets: divides exactly, where the source divides floats.
- Ffmpeg.CutAudio: takes integer seconds, as the source's annotations say. The editor passes the float from `check_positive`, whose `str()` form (`30.0`) is not modelled.
- Ffmpeg.ParseFormatRoundTrip: holds only for paths without a double quote and parameters without spaces. Other inputs make the command line ambiguous, exactly as in the source.
- `\d` is modelled as the ASCII digits; Python's regex also matches other Unicode decimal digits.
- Logging, `info`/`print`, `__enter__`/`__exit__`, the argument parsers and the `__main__` blocks are left out.
- The GUI is left out.
- The seek of the current editor ignores `start` (Editor.NegativeSeekWhenStartIsPositive). Availability is tested on the reference clock shifted by `start`, while the seek uses the offset alone. The model keeps the seek as written; whether another formula was meant is not decided here.
