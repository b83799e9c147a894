/**
 * The ffmpeg wrapper's pure parts: the command line it formats for each conversion, and the
 * duration arithmetic applied to the text `ffmpeg -i` prints. Running ffmpeg is not modelled.
 */
module Ffmpeg {
  import opened Results
  import Text
  import Numbers

  const NormSr: string := "8000"
  const NormAudioCodec: string := "pcm_s16le"
  const NormFps: string := "30"
  const NormVideoCodec: string := "libx264"

  /** The part of `FFMPEG_COMMAND` in front of the input path. */
  const CommandPrefix: string := "ffmpeg -loglevel error -i \""

  /**
   * The wrapper object: its `force_recreation` flag and the `i_path` / `o_path` attributes, which
   * exist only once a builder has set them.
   */
  datatype Wrapper = Wrapper(forceRecreation: bool, iPath: Option<string>, oPath: Option<string>)

  /** `create_command` before any builder ran reads attributes that do not exist yet. */
  datatype WrapperError = MissingAttribute

  /** `FfmpegWrapper(force_recreation)`: only the flag is set, so no command can be made yet. */
  function NewWrapper(forceRecreation: bool): (w: Wrapper)
    ensures w.forceRecreation == forceRecreation
    ensures forall parameters :: CreateCommand(w, parameters) == Err(MissingAttribute)
  {
    Wrapper(forceRecreation, None, None)
  }

  /** `"-y" if force_recreation else "-n"` */
  function ForceFlag(forceRecreation: bool): string {
    if forceRecreation then "-y" else "-n"
  }

  /** `FFMPEG_COMMAND.format(...)` with the given fields. */
  function FormatCommand(input: string, parameters: seq<string>, output: string, force: string): (cmd: string)
    ensures |cmd| >= |CommandPrefix| + |input| + 2 + |force|
    ensures cmd[..|CommandPrefix|] == CommandPrefix
    ensures cmd[|CommandPrefix|..|CommandPrefix| + |input|] == input
    ensures cmd[|cmd| - |force|..] == force
  {
    CommandPrefix + input + "\" " + Text.Join(parameters, " ") + " \"" + output + "\" " + force
  }

  /** The fields a command line is made of. */
  datatype CommandParts = CommandParts(input: string, parameters: seq<string>, output: string, force: string)

  /**
   * Reads a command line back into its fields: the input path up to the first quote after the
   * prefix, the output path after the last quote before the force flag, and the parameters as
   * the space-separated words in between.
   */
  function ParseCommand(cmd: string): Option<CommandParts>
  {
    if |cmd| < |CommandPrefix| || cmd[..|CommandPrefix|] != CommandPrefix then None
    else ParseAfterPrefix(cmd[|CommandPrefix|..])
  }

  /** `<input>" <rest>`: the input path ends at the first quote. */
  function ParseAfterPrefix(rest: string): Option<CommandParts>
  {
    var q := Text.IndexOf(rest, '"');
    if q == |rest| || q + 1 == |rest| || rest[q + 1] != ' ' then None
    else ParseBody(rest[..q], rest[q + 2..])
  }

  /** `<middle>" <force>`: the command ends with a closing quote, a space and the flag. */
  function ParseBody(input: string, body: string): Option<CommandParts>
  {
    if !EndsWithFlag(body) then None
    else ParseMiddle(input, body[..|body| - 4], body[|body| - 2..])
  }

  predicate EndsWithFlag(body: string) {
    && |body| >= 4
    && body[|body| - 4..|body| - 2] == "\" "
    && (body[|body| - 2..] == "-y" || body[|body| - 2..] == "-n")
  }

  /** `<parameters> "<output>`: the output path starts after the last quote. */
  function ParseMiddle(input: string, mid: string, force: string): Option<CommandParts>
  {
    var q := Text.LastIndexOf(mid, '"');
    if q < 1 || mid[q - 1] != ' ' then None
    else Some(CommandParts(input, Words(mid[..q - 1]), mid[q + 1..], force))
  }

  /** The words of a space-joined parameter list; no parameters were joined into "". */
  function Words(joined: string): seq<string> {
    if joined == "" then [] else Text.Split(joined, ' ')
  }

  /** Parameters that survive the round trip: non-empty words without spaces. */
  predicate PlainWords(parameters: seq<string>) {
    forall k :: 0 <= k < |parameters| ==> |parameters[k]| > 0 && ' ' !in parameters[k]
  }

  lemma JoinStartsWithFirst(parts: seq<string>, sep: string)
    requires |parts| > 0
    ensures |Text.Join(parts, sep)| >= |parts[0]|
  {
  }

  lemma WordsOfJoin(parameters: seq<string>)
    requires PlainWords(parameters)
    ensures Words(Text.Join(parameters, " ")) == parameters
  {
    if |parameters| > 0 {
      JoinStartsWithFirst(parameters, " ");
      assert " " == [' '];
      Text.SplitJoin(parameters, ' ');
    }
  }

  lemma ParseMiddleOk(input: string, joined: string, output: string, force: string)
    requires '"' !in output
    ensures ParseMiddle(input, joined + " \"" + output, force) == Some(CommandParts(input, Words(joined), output, force))
  {
    var mid := joined + " \"" + output;
    assert mid == (joined + " \"") + output;
    Text.LastIndexOfBeforeFreeSuffix(joined + " \"", output, '"');
    assert mid[|joined|] == ' ';
    assert mid[..|joined|] == joined;
    assert mid[|joined| + 2..] == output;
  }

  lemma ClosingFlagOk(mid: string, force: string)
    requires force == "-y" || force == "-n"
    ensures var body := mid + "\" " + force;
      EndsWithFlag(body) && body[..|body| - 4] == mid && body[|body| - 2..] == force
  {
    var body := mid + "\" " + force;
    assert body[|body| - 2..] == force;
    assert body[|body| - 4..|body| - 2] == "\" ";
    assert body[..|body| - 4] == mid;
  }

  lemma ParseBodyOk(input: string, mid: string, force: string)
    requires force == "-y" || force == "-n"
    ensures ParseBody(input, mid + "\" " + force) == ParseMiddle(input, mid, force)
  {
    ClosingFlagOk(mid, force);
  }

  lemma ParseAfterPrefixOk(input: string, body: string)
    requires '"' !in input
    ensures ParseAfterPrefix(input + "\" " + body) == ParseBody(input, body)
  {
    var rest := input + "\" " + body;
    assert rest == input + ("\" " + body);
    Text.IndexOfAfterFreePrefix(input, "\" " + body, '"');
    assert rest[|input| + 1] == ' ';
    assert rest[..|input|] == input;
    assert rest[|input| + 2..] == body;
  }

  /**
   * Formatting then parsing gives the fields back, as long as neither path contains a double
   * quote and the parameters are plain words.
   */
  lemma ParseFormatRoundTrip(input: string, parameters: seq<string>, output: string, forceRecreation: bool)
    requires '"' !in input && '"' !in output
    requires PlainWords(parameters)
    ensures ParseCommand(FormatCommand(input, parameters, output, ForceFlag(forceRecreation)))
         == Some(CommandParts(input, parameters, output, ForceFlag(forceRecreation)))
  {
    var force := ForceFlag(forceRecreation);
    var joined := Text.Join(parameters, " ");
    var mid := joined + " \"" + output;
    var body := mid + "\" " + force;
    var rest := input + "\" " + body;
    var cmd := FormatCommand(input, parameters, output, force);
    assert cmd == CommandPrefix + rest;
    assert cmd[..|CommandPrefix|] == CommandPrefix;
    assert cmd[|CommandPrefix|..] == rest;
    ParseAfterPrefixOk(input, body);
    ParseBodyOk(input, mid, force);
    ParseMiddleOk(input, joined, output, force);
    WordsOfJoin(parameters);
  }

  /** `create_command`: the template filled with the current paths and the force flag. */
  function CreateCommand(w: Wrapper, parameters: seq<string>): (r: Result<string, WrapperError>)
    ensures r.Err? <==> w.iPath.None? || w.oPath.None?
    ensures r.Ok? && '"' !in w.iPath.value && '"' !in w.oPath.value && PlainWords(parameters) ==>
      ParseCommand(r.value) == Some(CommandParts(w.iPath.value, parameters, w.oPath.value, ForceFlag(w.forceRecreation)))
  {
    if w.iPath.None? || w.oPath.None? then Err(MissingAttribute)
    else
      var cmd := FormatCommand(w.iPath.value, parameters, w.oPath.value, ForceFlag(w.forceRecreation));
      if '"' !in w.iPath.value && '"' !in w.oPath.value && PlainWords(parameters) then
        ParseFormatRoundTrip(w.iPath.value, parameters, w.oPath.value, w.forceRecreation);
        Ok(cmd)
      else Ok(cmd)
  }

  /** A builder's result: the wrapper with its paths overwritten, and the command it returns. */
  datatype Built = Built(wrapper: Wrapper, command: string)

  /** Sets both paths, then formats the command with those parameters. */
  function Build(w: Wrapper, input: string, output: string, parameters: seq<string>): (b: Built)
    ensures b.wrapper == Wrapper(w.forceRecreation, Some(input), Some(output))
    ensures CreateCommand(b.wrapper, parameters) == Ok(b.command)
    ensures '"' !in input && '"' !in output && PlainWords(parameters) ==>
      ParseCommand(b.command) == Some(CommandParts(input, parameters, output, ForceFlag(w.forceRecreation)))
  {
    var w' := Wrapper(w.forceRecreation, Some(input), Some(output));
    Built(w', CreateCommand(w', parameters).value)
  }

  /** Earlier paths leave no trace: only the flag and the latest paths decide the command. */
  lemma BuildForgetsEarlierPaths(w1: Wrapper, w2: Wrapper, input: string, output: string, parameters: seq<string>)
    requires w1.forceRecreation == w2.forceRecreation
    ensures Build(w1, input, output, parameters) == Build(w2, input, output, parameters)
  {
  }

  const WavParameters: seq<string> := ["-vn", "-acodec", NormAudioCodec, "-ar", NormSr, "-ac", "1"]
  const Mp4Parameters: seq<string> := ["-an", "-vcodec", NormVideoCodec, "-r", NormFps]

  /** `to_wav`: mono 16-bit PCM at 8000 Hz, no video. */
  function ToWav(w: Wrapper, input: string, output: string): (b: Built)
    ensures b.wrapper == Wrapper(w.forceRecreation, Some(input), Some(output))
    ensures '"' !in input && '"' !in output ==>
      ParseCommand(b.command) == Some(CommandParts(input, ["-vn", "-acodec", "pcm_s16le", "-ar", "8000", "-ac", "1"], output, ForceFlag(w.forceRecreation)))
  {
    assert PlainWords(WavParameters) by {
      assert forall k :: 0 <= k < |WavParameters| ==> |WavParameters[k]| > 0;
    }
    Build(w, input, output, WavParameters)
  }

  /** `to_mp4`: H.264 at 30 frames per second, no audio. */
  function ToMp4(w: Wrapper, input: string, output: string): (b: Built)
    ensures b.wrapper == Wrapper(w.forceRecreation, Some(input), Some(output))
    ensures '"' !in input && '"' !in output ==>
      ParseCommand(b.command) == Some(CommandParts(input, ["-an", "-vcodec", "libx264", "-r", "30"], output, ForceFlag(w.forceRecreation)))
  {
    assert PlainWords(Mp4Parameters) by {
      assert forall k :: 0 <= k < |Mp4Parameters| ==> |Mp4Parameters[k]| > 0;
    }
    Build(w, input, output, Mp4Parameters)
  }

  function CutAudioParameters(startOffsetSeconds: int, duration: int): (r: seq<string>)
    ensures PlainWords(r)
  {
    ["-ss", Numbers.IntToString(startOffsetSeconds), "-t", Numbers.IntToString(duration),
     "-acodec", NormAudioCodec, "-ar", "44100", "-ac", "2"]
  }

  /**
   * `cut_audio`: seek and length first, then stereo 16-bit PCM at 44100 Hz. The seek and the
   * length are the `str()` of the integer arguments, so they read back as the same numbers.
   */
  function CutAudio(w: Wrapper, input: string, output: string, startOffsetSeconds: int, duration: int): (b: Built)
    ensures b.wrapper == Wrapper(w.forceRecreation, Some(input), Some(output))
    ensures '"' !in input && '"' !in output ==>
      var parts := ParseCommand(b.command);
      && parts.Some?
      && |parts.value.parameters| == 10
      && parts.value.parameters[0] == "-ss" && parts.value.parameters[2] == "-t"
      && Numbers.IsIntText(parts.value.parameters[1]) && Numbers.IntValue(parts.value.parameters[1]) == startOffsetSeconds
      && Numbers.IsIntText(parts.value.parameters[3]) && Numbers.IntValue(parts.value.parameters[3]) == duration
      && parts.value.parameters[4..] == ["-acodec", "pcm_s16le", "-ar", "44100", "-ac", "2"]
  {
    var parameters := CutAudioParameters(startOffsetSeconds, duration);
    Numbers.IntToStringRoundTrip(startOffsetSeconds);
    Numbers.IntToStringRoundTrip(duration);
    assert parameters[1] == Numbers.IntToString(startOffsetSeconds);
    assert parameters[3] == Numbers.IntToString(duration);
    assert parameters[4..] == ["-acodec", "pcm_s16le", "-ar", "44100", "-ac", "2"];
    Build(w, input, output, parameters)
  }

  // ---------------------------------------------------------------------------------------------
  // `get_audio_duration`: the first `Duration: H:M:S.f` in ffmpeg's report, in seconds.

  /** The four digit fields of one match of `Duration: \d+:\d+:\d+\.\d+`. */
  datatype DurationFields = DurationFields(hours: string, minutes: string, seconds: string, fraction: string)

  predicate NonEmptyDigits(s: string) {
    |s| > 0 && Numbers.AllDigits(s)
  }

  predicate FieldsOk(f: DurationFields) {
    NonEmptyDigits(f.hours) && NonEmptyDigits(f.minutes) && NonEmptyDigits(f.seconds) && NonEmptyDigits(f.fraction)
  }

  const DurationTag: string := "Duration: "

  /** `x`, the separator `sep`, then `y`. */
  function Cat(x: string, sep: char, y: string): string {
    x + [sep] + y
  }

  /** The text of a match with fields `f`, followed by `rest`. */
  function Tagged(f: DurationFields, rest: string): string {
    DurationTag + Cat(f.hours, ':', Cat(f.minutes, ':', Cat(f.seconds, '.', f.fraction + rest)))
  }

  /** Text that a greedy `\d+` must stop in front of. */
  predicate StartsWithNonDigit(s: string) {
    |s| == 0 || !Numbers.IsDigit(s[0])
  }

  /** Number of ASCII digits `s` starts with: what a greedy `\d+` consumes. */
  function DigitRun(s: string): (n: nat)
    ensures n <= |s| && Numbers.AllDigits(s[..n])
    ensures StartsWithNonDigit(s[n..])
  {
    if |s| > 0 && Numbers.IsDigit(s[0]) then
      var n := 1 + DigitRun(s[1..]);
      assert s[..n] == [s[0]] + s[1..][..n - 1];
      assert s[n..] == s[1..][n - 1..];
      n
    else 0
  }

  lemma {:induction false} DigitRunAppend(d: string, t: string)
    requires Numbers.AllDigits(d)
    ensures DigitRun(d + t) == |d| + DigitRun(t)
  {
    if |d| > 0 {
      assert (d + t)[1..] == d[1..] + t;
      DigitRunAppend(d[1..], t);
    } else {
      assert d + t == t;
    }
  }

  /** A greedy `\d+` followed by the separator `sep`: the digits and the text after `sep`. */
  function DigitField(s: string, sep: char): (r: Option<(string, string)>)
    ensures r.Some? ==> NonEmptyDigits(r.value.0) && s == Cat(r.value.0, sep, r.value.1)
  {
    var n := DigitRun(s);
    if n == 0 || n == |s| || s[n] != sep then None
    else
      assert s == s[..n] + [sep] + s[n + 1..];
      Some((s[..n], s[n + 1..]))
  }

  lemma DigitFieldOf(d: string, sep: char, rest: string)
    requires NonEmptyDigits(d) && !Numbers.IsDigit(sep)
    ensures DigitField(Cat(d, sep, rest), sep) == Some((d, rest))
  {
    var s := Cat(d, sep, rest);
    assert s == d + ([sep] + rest);
    DigitRunAppend(d, [sep] + rest);
    assert s[..|d|] == d;
    assert s[|d| + 1..] == rest;
  }

  /** The fields after the tag, and the text the match leaves over. */
  function MatchFields(a: string): (r: Option<(DurationFields, string)>)
    ensures r.Some? ==> FieldsOk(r.value.0) && StartsWithNonDigit(r.value.1)
    ensures r.Some? ==> a == Cat(r.value.0.hours, ':', Cat(r.value.0.minutes, ':',
                               Cat(r.value.0.seconds, '.', r.value.0.fraction + r.value.1)))
  {
    match DigitField(a, ':')
    case None => None
    case Some((h, b)) =>
      match DigitField(b, ':')
      case None => None
      case Some((m, c)) =>
        match DigitField(c, '.')
        case None => None
        case Some((sec, d)) =>
          match FractionField(d)
          case None => None
          case Some((frac, rest)) => Some((DurationFields(h, m, sec, frac), rest))
  }

  /** The final greedy `\d+`: the digits and the text after them. */
  function FractionField(d: string): (r: Option<(string, string)>)
    ensures r.Some? ==> NonEmptyDigits(r.value.0) && StartsWithNonDigit(r.value.1) && d == r.value.0 + r.value.1
  {
    var n := DigitRun(d);
    if n == 0 then None
    else
      assert d == d[..n] + d[n..];
      Some((d[..n], d[n..]))
  }

  lemma FractionFieldOf(frac: string, rest: string)
    requires NonEmptyDigits(frac)
    ensures FractionField(frac + rest) == Some((frac + rest[..DigitRun(rest)], rest[DigitRun(rest)..]))
  {
    var d := frac + rest;
    DigitRunAppend(frac, rest);
    var n := DigitRun(rest);
    var m := |frac| + n;
    assert FractionField(d) == Some((d[..m], d[m..]));
    assert d[..m] == frac + rest[..n];
    assert d[m..] == rest[n..];
  }

  /**
   * The match of the pattern at the very start of `s`, if there is one: its fields and the
   * text after it.
   */
  function MatchHere(s: string): Option<(DurationFields, string)> {
    if |s| < |DurationTag| || s[..|DurationTag|] != DurationTag then None
    else MatchFields(s[|DurationTag|..])
  }

  /** A match is a well-formed tagged duration followed by text that does not extend it. */
  lemma MatchHereShape(s: string)
    ensures var r := MatchHere(s);
            r.Some? ==> FieldsOk(r.value.0) && StartsWithNonDigit(r.value.1) && s == Tagged(r.value.0, r.value.1)
  {
    if |s| >= |DurationTag| && s[..|DurationTag|] == DurationTag {
      assert s == DurationTag + s[|DurationTag|..];
    }
  }

  /** `f` with its fraction extended by the digits `rest` starts with. */
  function Greedy(f: DurationFields, rest: string): DurationFields {
    DurationFields(f.hours, f.minutes, f.seconds, f.fraction + rest[..DigitRun(rest)])
  }

  /**
   * Wherever the pattern occurs at the start of `s`, `MatchHere` finds it: the hour, minute and
   * second fields as they are, and the fraction extended by every digit that follows it.
   */
  lemma MatchHereFinds(f: DurationFields, rest: string)
    requires FieldsOk(f)
    ensures MatchHere(Tagged(f, rest)) == Some((Greedy(f, rest), rest[DigitRun(rest)..]))
  {
    var a := Cat(f.hours, ':', Cat(f.minutes, ':', Cat(f.seconds, '.', f.fraction + rest)));
    var s := Tagged(f, rest);
    assert s[..|DurationTag|] == DurationTag;
    assert s[|DurationTag|..] == a;
    MatchFieldsFinds(f, rest);
  }

  lemma MatchFieldsFinds(f: DurationFields, rest: string)
    requires FieldsOk(f)
    ensures MatchFields(Cat(f.hours, ':', Cat(f.minutes, ':', Cat(f.seconds, '.', f.fraction + rest))))
         == Some((Greedy(f, rest), rest[DigitRun(rest)..]))
  {
    var d := f.fraction + rest;
    var c := Cat(f.seconds, '.', d);
    var b := Cat(f.minutes, ':', c);
    DigitFieldOf(f.hours, ':', b);
    DigitFieldOf(f.minutes, ':', c);
    DigitFieldOf(f.seconds, '.', d);
    FractionFieldOf(f.fraction, rest);
  }

  /** A match followed by a non-digit (or the end) is read back field for field. */
  lemma MatchHereExact(f: DurationFields, rest: string)
    requires FieldsOk(f) && StartsWithNonDigit(rest)
    ensures MatchHere(Tagged(f, rest)) == Some((f, rest))
  {
    MatchHereFinds(f, rest);
    assert DigitRun(rest) == 0;
    assert f.fraction + rest[..0] == f.fraction;
  }

  /** No match can start in front of anything but a `D`. */
  lemma NoMatchBeforeTag(s: string)
    requires |s| > 0 && s[0] != 'D'
    ensures MatchHere(s).None?
  {
    assert |s| >= |DurationTag| ==> s[..|DurationTag|][0] != DurationTag[0];
  }

  /** Whether a match starts at position `q` of `s`. */
  predicate MatchAt(s: string, q: nat)
    requires q <= |s|
  {
    MatchHere(s[q..]).Some?
  }

  /** The leftmost match at or after `from`: what `re.findall(...)[0]` returns. */
  function FirstMatchFrom(s: string, from: nat): (r: Option<nat>)
    requires from <= |s|
    ensures r.Some? ==> from <= r.value <= |s| && MatchAt(s, r.value)
    ensures r.Some? ==> forall q :: from <= q < r.value ==> !MatchAt(s, q)
    ensures r.None? ==> forall q :: from <= q <= |s| ==> !MatchAt(s, q)
    decreases |s| - from
  {
    if MatchAt(s, from) then Some(from)
    else if from == |s| then None
    else
      FirstMatchFrom(s, from + 1)
  }

  /** `int(H) * 3600 + int(M) * 60 + float(S.f)`, with the decimal read exactly (see `DurationSecondsExact`). */
  function DurationSeconds(f: DurationFields): (r: real)
    requires FieldsOk(f)
    ensures var whole := Numbers.DigitsValue(f.hours) * 3600 + Numbers.DigitsValue(f.minutes) * 60
                         + Numbers.DigitsValue(f.seconds);
            whole as real <= r < whole as real + 1.0
  {
    (Numbers.DigitsValue(f.hours) * 3600 + Numbers.DigitsValue(f.minutes) * 60) as real
      + Numbers.DecimalValue(f.seconds, f.fraction)
  }

  /**
   * The duration is exact: the whole minutes and hours, plus the digits `S` and `f` read as one
   * number scaled down by `10^len(f)`.
   */
  lemma DurationSecondsExact(f: DurationFields)
    requires FieldsOk(f)
    ensures Numbers.AllDigits(f.seconds + f.fraction)
    ensures var scale := Numbers.Pow10(|f.fraction|);
            DurationSeconds(f)
            == ((Numbers.DigitsValue(f.hours) * 3600 + Numbers.DigitsValue(f.minutes) * 60) * scale
                + Numbers.DigitsValue(f.seconds + f.fraction)) as real / scale as real
  {
    Numbers.DecimalValueExact(f.seconds, f.fraction);
    var w := Numbers.DigitsValue(f.hours) * 3600 + Numbers.DigitsValue(f.minutes) * 60;
    var scale := Numbers.Pow10(|f.fraction|);
    var n := Numbers.DigitsValue(f.seconds + f.fraction);
    Numbers.ShiftedQuotient(w, n, scale);
  }

  /** `Duration: 00:01:02.50` is 62.5 seconds. */
  lemma DurationSecondsSample()
    ensures DurationSeconds(DurationFields("00", "01", "02", "50")) == 62.5
  {
    var f := DurationFields("00", "01", "02", "50");
    DurationSecondsExact(f);
    assert Numbers.DigitsValue("00") == 0;
    assert Numbers.DigitsValue("01") == 1;
    assert f.seconds + f.fraction == "0250";
    assert Numbers.DigitsValue("0250") == 250;
  }

  /**
   * The duration `get_audio_duration` computes from one ffmpeg report; `None` where the report
   * holds no match, which the source answers by probing again.
   */
  function AudioDuration(report: string): (r: Option<real>)
    ensures r.None? <==> forall q :: 0 <= q <= |report| ==> !MatchAt(report, q)
  {
    var p := FirstMatchFrom(report, 0);
    if p.None? then None
    else
      MatchHereShape(report[p.value..]);
      Some(DurationSeconds(MatchHere(report[p.value..]).value.0))
  }

  /**
   * Wherever the leftmost match of a report starts, `AudioDuration` reads that match's fields and
   * nothing else.
   */
  lemma AudioDurationAtFirstMatch(report: string, p: nat)
    requires p <= |report| && MatchAt(report, p)
    requires forall q :: 0 <= q < p ==> !MatchAt(report, q)
    ensures FieldsOk(MatchHere(report[p..]).value.0)
    ensures AudioDuration(report) == Some(DurationSeconds(MatchHere(report[p..]).value.0))
  {
    MatchHereShape(report[p..]);
    var r := FirstMatchFrom(report, 0);
    assert r.Some? && r.value == p;
  }

  /**
   * A report whose leftmost match is the `Duration: ` carrying the fields `f` yields their value in
   * seconds, with the fraction extended by any digits that follow it (the `\d+` is greedy); when a
   * non-digit follows, exactly the value of `f`.
   */
  lemma AudioDurationOfReport(before: string, f: DurationFields, rest: string)
    requires FieldsOk(f)
    requires forall q :: 0 <= q < |before| ==> !MatchAt(before + Tagged(f, rest), q)
    ensures FieldsOk(Greedy(f, rest))
    ensures AudioDuration(before + Tagged(f, rest)) == Some(DurationSeconds(Greedy(f, rest)))
    ensures StartsWithNonDigit(rest) ==> AudioDuration(before + Tagged(f, rest)) == Some(DurationSeconds(f))
  {
    var s := before + Tagged(f, rest);
    assert s[|before|..] == Tagged(f, rest);
    MatchHereFinds(f, rest);
    AudioDurationAtFirstMatch(s, |before|);
    if StartsWithNonDigit(rest) {
      MatchHereExact(f, rest);
    }
  }

  /** Text without a `D` holds no match, so a report that opens with such text is read at its tag. */
  lemma NoMatchWithoutTag(before: string, after: string, q: nat)
    requires 'D' !in before && q < |before|
    ensures !MatchAt(before + after, q)
  {
    var s := before + after;
    assert s[q..][0] == before[q];
    NoMatchBeforeTag(s[q..]);
  }
}
