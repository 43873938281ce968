/** The request rules of the voiceover generator: the guards that refuse a
    request before the speech service is called, the naming of the output
    file and its download URL, the drawtext escaper used for the video
    overlay, the video fallback chain, the duration probe's default and the
    file-info extension rule.  The speech service, ffmpeg, ffprobe and the
    file system are parameters. */
module Voiceover {
  import opened PyStr
  import opened Results

  // ---------------------------------------------------------------- validation

  const Voices: seq<string> := ["alloy", "echo", "fable", "onyx", "nova", "shimmer"]
  const Formats: seq<string> := ["mp3", "wav", "mp4"]

  /** Which step of the generation raised. */
  datatype Stage = SpeechRequest | VideoCreation | AudioConversion

  /** Why generate_speech raises. */
  datatype Failure =
    | ClientNotConfigured
    | UnsupportedVoice(voice: string)
    | UnsupportedFormat(format: string)
    | GenerationFailed(stage: Stage)

  /** The three guards at the top of generate_speech, checked in order:
      the client, then the voice, then the format. */
  function Validate(clientConfigured: bool, voice: string, format: string): (r: Option<Failure>)
    ensures r == None <==> clientConfigured && voice in Voices && format in Formats
    ensures r == Some(ClientNotConfigured) <==> !clientConfigured
    ensures r == Some(UnsupportedVoice(voice)) <==> clientConfigured && voice !in Voices
    ensures r == Some(UnsupportedFormat(format)) <==> clientConfigured && voice in Voices && format !in Formats
  {
    if !clientConfigured then Some(ClientNotConfigured)
    else if voice !in Voices then Some(UnsupportedVoice(voice))
    else if format !in Formats then Some(UnsupportedFormat(format))
    else None
  }

  // ---------------------------------------------------------------- naming

  /** file_id: the uuid, prefixed by the session id and an underscore when
      the session id is given and not empty. */
  function FileId(sessionId: Option<string>, uuid: string): (r: string)
    ensures |uuid| <= |r| && r[|r| - |uuid|..] == uuid
    ensures sessionId.None? || sessionId.value == [] ==> r == uuid
    ensures sessionId.Some? && sessionId.value != [] ==>
      |r| == |sessionId.value| + 1 + |uuid| && r[..|sessionId.value|] == sessionId.value && r[|sessionId.value|] == '_'
  {
    if sessionId.Some? && sessionId.value != [] then sessionId.value + "_" + uuid else uuid
  }

  /** With underscore-free parts the file id splits back into the session id
      and the uuid, and the uuid is always its last field. */
  lemma FileIdSplits(sessionId: Option<string>, uuid: string)
    requires '_' !in uuid
    ensures Last(SplitOn(FileId(sessionId, uuid), '_')) == uuid
    ensures sessionId.Some? && sessionId.value != [] && '_' !in sessionId.value ==>
      SplitOn(FileId(sessionId, uuid), '_') == [sessionId.value, uuid]
  {
    if sessionId.Some? && sessionId.value != [] {
      var s := sessionId.value;
      LastAfterSep(s, uuid, '_');
      if '_' !in s {
        SplitOfJoin([s, uuid], '_');
        assert JoinWith("_", [s, uuid]) == s + "_" + uuid;
      }
    } else {
      SplitLast(uuid, '_');
    }
  }

  /** The output file name: file_id.mp4 for video, file_id.<format> for the
      audio formats. */
  function OutputName(fileId: string, format: string): (r: string)
    ensures r == fileId + "." + format
  {
    if format == "mp4" then fileId + ".mp4" else fileId + "." + format
  }

  /** os.path.join for a folder and a file name (POSIX rules). */
  function PathJoin(folder: string, name: string): (r: string)
    ensures |name| <= |r| && r[|r| - |name|..] == name
  {
    if StartsWith(name, "/") then name
    else if folder == [] || folder[|folder| - 1] == '/' then folder + name
    else folder + "/" + name
  }

  /** os.path.basename: the text after the last slash. */
  function Basename(path: string): (r: string)
    ensures |r| <= |path| && r == path[|path| - |r|..] && '/' !in r
    ensures |r| < |path| ==> path[|path| - |r| - 1] == '/'
    ensures '/' !in path ==> r == path
  {
    SplitLast(path, '/');
    var fields := SplitOn(path, '/');
    assert '/' !in fields[|fields| - 1];
    Last(fields)
  }

  /** A file name without a slash is the basename of its joined path. */
  lemma BasenameOfJoin(folder: string, name: string)
    requires '/' !in name
    ensures Basename(PathJoin(folder, name)) == name
  {
    if folder == [] {
    } else if folder[|folder| - 1] == '/' {
      var init := folder[..|folder| - 1];
      assert folder + name == init + ['/'] + name;
      LastAfterSep(init, name, '/');
    } else {
      LastAfterSep(folder, name, '/');
    }
  }

  const DownloadPrefix: string := "/download-voiceover/"

  /** file_url: the download route followed by the file's basename. */
  function DownloadUrl(path: string): (r: string)
    ensures |r| == |DownloadPrefix| + |Basename(path)|
    ensures r[..|DownloadPrefix|] == DownloadPrefix && r[|DownloadPrefix|..] == Basename(path)
    ensures '/' !in r[|DownloadPrefix|..]
  {
    DownloadPrefix + Basename(path)
  }

  // ---------------------------------------------------------------- drawtext escaping

  /** The characters _escape_text_for_ffmpeg puts a backslash in front of;
      the backslash itself is not one of them. */
  predicate FfmpegSpecial(c: char) {
    c == '\'' || c == ':' || c == ',' || c == '[' || c == ']'
  }

  /** _escape_text_for_ffmpeg: five replaces in sequence. */
  function EscapeForFfmpeg(s: string): string {
    var s1 := ReplaceChar(s, '\'', "\\'");
    var s2 := ReplaceChar(s1, ':', "\\:");
    var s3 := ReplaceChar(s2, ',', "\\,");
    var s4 := ReplaceChar(s3, '[', "\\[");
    ReplaceChar(s4, ']', "\\]")
  }

  /** The same escaping stated one character at a time. */
  function FfmpegEscapeChar(c: char): string {
    if FfmpegSpecial(c) then ['\\', c] else [c]
  }

  function FfmpegEscapeEach(s: string): string {
    if s == [] then [] else FfmpegEscapeChar(s[0]) + FfmpegEscapeEach(s[1..])
  }

  lemma EscapeForFfmpegConcat(a: string, b: string)
    ensures EscapeForFfmpeg(a + b) == EscapeForFfmpeg(a) + EscapeForFfmpeg(b)
  {
    var a1, b1 := ReplaceChar(a, '\'', "\\'"), ReplaceChar(b, '\'', "\\'");
    ReplaceCharConcat(a, b, '\'', "\\'");
    var a2, b2 := ReplaceChar(a1, ':', "\\:"), ReplaceChar(b1, ':', "\\:");
    ReplaceCharConcat(a1, b1, ':', "\\:");
    var a3, b3 := ReplaceChar(a2, ',', "\\,"), ReplaceChar(b2, ',', "\\,");
    ReplaceCharConcat(a2, b2, ',', "\\,");
    var a4, b4 := ReplaceChar(a3, '[', "\\["), ReplaceChar(b3, '[', "\\[");
    ReplaceCharConcat(a3, b3, '[', "\\[");
    ReplaceCharConcat(a4, b4, ']', "\\]");
  }

  lemma EscapeForFfmpegChar(c: char)
    ensures EscapeForFfmpeg([c]) == FfmpegEscapeChar(c)
  {
    var s1 := ReplaceChar([c], '\'', "\\'");
    assert s1 == (if c == '\'' then "\\'" else [c]) by {
      assert [c][1..] == [];
    }
    var s2 := ReplaceChar(s1, ':', "\\:");
    assert s2 == (if c == ':' then "\\:" else s1) by {
      if c == ':' { assert [c][1..] == []; }
    }
    var s3 := ReplaceChar(s2, ',', "\\,");
    assert s3 == (if c == ',' then "\\," else s2) by {
      if c == ',' { assert [c][1..] == []; }
    }
    var s4 := ReplaceChar(s3, '[', "\\[");
    assert s4 == (if c == '[' then "\\[" else s3) by {
      if c == '[' { assert [c][1..] == []; }
    }
    var s5 := ReplaceChar(s4, ']', "\\]");
    assert s5 == (if c == ']' then "\\]" else s4) by {
      if c == ']' { assert [c][1..] == []; }
    }
  }

  /** The backslash a replace inserts is never a later pattern, so the five
      replaces do not interfere: the chain escapes each character on its
      own. */
  lemma {:induction false} EscapeForFfmpegIsCharwise(s: string)
    ensures EscapeForFfmpeg(s) == FfmpegEscapeEach(s)
  {
    if s != [] {
      assert s == [s[0]] + s[1..];
      EscapeForFfmpegConcat([s[0]], s[1..]);
      EscapeForFfmpegChar(s[0]);
      EscapeForFfmpegIsCharwise(s[1..]);
    }
  }

  function CountFfmpegSpecial(s: string): nat {
    if s == [] then 0 else (if FfmpegSpecial(s[0]) then 1 else 0) + CountFfmpegSpecial(s[1..])
  }

  lemma {:induction false} FfmpegEscapeEachLength(s: string)
    ensures |FfmpegEscapeEach(s)| == |s| + CountFfmpegSpecial(s)
  {
    if s != [] {
      FfmpegEscapeEachLength(s[1..]);
    }
  }

  /** One backslash is inserted per special character and nothing else
      changes length. */
  lemma EscapeForFfmpegLength(s: string)
    ensures |EscapeForFfmpeg(s)| == |s| + CountFfmpegSpecial(s)
  {
    EscapeForFfmpegIsCharwise(s);
    FfmpegEscapeEachLength(s);
  }

  /** A text without the five characters, backslashes included, is left as
      it is. */
  lemma {:induction false} EscapeForFfmpegKeepsOthers(s: string)
    requires forall i :: 0 <= i < |s| ==> !FfmpegSpecial(s[i])
    ensures EscapeForFfmpeg(s) == s
  {
    EscapeForFfmpegIsCharwise(s);
    KeepsOthersEach(s);
  }

  lemma {:induction false} KeepsOthersEach(s: string)
    requires forall i :: 0 <= i < |s| ==> !FfmpegSpecial(s[i])
    ensures FfmpegEscapeEach(s) == s
  {
    if s != [] {
      KeepsOthersEach(s[1..]);
      assert s == [s[0]] + s[1..];
    }
  }

  /** How an escaped text reads back: a backslash followed by a character
      stands for that character, anything else for itself. */
  function Unescape(s: string): (r: string)
    ensures |r| <= |s|
    decreases |s|
  {
    if s == [] then []
    else if s[0] == '\\' && |s| >= 2 then [s[1]] + Unescape(s[2..])
    else [s[0]] + Unescape(s[1..])
  }

  /** One escaped character reads back as itself. */
  lemma UnescapeChar(c: char, tail: string)
    requires c != '\\'
    ensures Unescape(FfmpegEscapeChar(c) + tail) == [c] + Unescape(tail)
  {
    var e := FfmpegEscapeChar(c) + tail;
    if FfmpegSpecial(c) {
      assert e[0] == '\\' && e[1] == c && e[2..] == tail;
    } else {
      assert e[0] == c && e[1..] == tail;
    }
  }

  lemma {:induction false} UnescapeEscaped(x: string, rest: string)
    requires '\\' !in x
    ensures Unescape(FfmpegEscapeEach(x) + rest) == x + Unescape(rest)
  {
    if x == [] {
      assert FfmpegEscapeEach(x) + rest == rest;
    } else {
      var c := x[0];
      var tail := FfmpegEscapeEach(x[1..]) + rest;
      assert '\\' !in x[1..];
      calc {
        Unescape(FfmpegEscapeEach(x) + rest);
      == { assert FfmpegEscapeEach(x) + rest == FfmpegEscapeChar(c) + tail; }
        Unescape(FfmpegEscapeChar(c) + tail);
      == { UnescapeChar(c, tail); }
        [c] + Unescape(tail);
      == { UnescapeEscaped(x[1..], rest); }
        [c] + (x[1..] + Unescape(rest));
      == { assert x == [c] + x[1..]; }
        x + Unescape(rest);
      }
    }
  }

  /** Without backslashes in the input, removing the escapes recovers it. */
  lemma EscapeForFfmpegReadsBack(s: string)
    requires '\\' !in s
    ensures Unescape(EscapeForFfmpeg(s)) == s
  {
    EscapeForFfmpegIsCharwise(s);
    UnescapeEscaped(s, []);
    assert FfmpegEscapeEach(s) + [] == FfmpegEscapeEach(s);
    assert s + [] == s;
  }

  /** A backslash already in the text is not doubled, so it is read as an
      escape of the character after it and is lost: in a text without the
      five characters, the first backslash and the character c after it
      read back as c alone. */
  lemma BackslashIsNotDoubled(u: string, c: char, v: string)
    requires '\\' !in u
    requires forall i :: 0 <= i < |u + ['\\', c] + v| ==> !FfmpegSpecial((u + ['\\', c] + v)[i])
    ensures var s := u + ['\\', c] + v;
      && EscapeForFfmpeg(s) == s
      && Unescape(EscapeForFfmpeg(s)) == u + [c] + Unescape(v)
      && Unescape(EscapeForFfmpeg(s)) != s
  {
    var s := u + ['\\', c] + v;
    var rest := ['\\', c] + v;
    assert s == u + rest;
    EscapeForFfmpegKeepsOthers(s);
    assert forall i :: 0 <= i < |u| ==> !FfmpegSpecial(u[i]) by {
      forall i | 0 <= i < |u| ensures !FfmpegSpecial(u[i]) {
        assert u[i] == s[i];
      }
    }
    EscapeForFfmpegKeepsOthers(u);
    EscapeForFfmpegIsCharwise(u);
    UnescapeEscaped(u, rest);
    assert rest[2..] == v;
    assert Unescape(rest) == [c] + Unescape(v);
    assert |Unescape(EscapeForFfmpeg(s))| < |s|;
  }

  const OverlayLimit: nat := 100

  /** The overlay text of the waveform video: the first 100 characters of
      the script, escaped, followed by three dots. */
  function OverlayText(text: string): (r: string)
    ensures var n := if |text| < OverlayLimit then |text| else OverlayLimit;
      |r| == n + CountFfmpegSpecial(text[..n]) + 3 && r[|r| - 3..] == "..."
  {
    var n := if |text| < OverlayLimit then |text| else OverlayLimit;
    EscapeForFfmpegLength(text[..n]);
    EscapeForFfmpeg(text[..n]) + "..."
  }

  /** The overlay shows at most the first 100 characters of the script, and
      without backslashes they read back exactly. */
  lemma OverlayReadsBack(text: string)
    requires '\\' !in text
    ensures var r := OverlayText(text);
      var n := if |text| < OverlayLimit then |text| else OverlayLimit;
      Unescape(r[..|r| - 3]) == text[..n]
  {
    var n := if |text| < OverlayLimit then |text| else OverlayLimit;
    var r := OverlayText(text);
    assert '\\' !in text[..n];
    assert r[..|r| - 3] == EscapeForFfmpeg(text[..n]);
    EscapeForFfmpegReadsBack(text[..n]);
  }

  // ---------------------------------------------------------------- probes and ffmpeg runs

  /** What running ffprobe gives: an exit code and, when its JSON output has
      a numeric format duration, that duration; or an exception. */
  datatype Probe = Exited(returncode: int, reported: Option<real>) | Raised

  const DefaultDuration: real := 30.0

  /** _get_audio_duration: the reported duration of a successful probe, and
      30.0 in every other case. */
  function AudioDuration(p: Probe): (d: real)
    ensures d != DefaultDuration ==> p == Exited(0, Some(d))
    ensures p.Exited? && p.returncode == 0 && p.reported.Some? ==> d == p.reported.value
  {
    match p
    case Exited(code, reported) =>
      if code == 0 && reported.Some? then reported.value else DefaultDuration
    case Raised => DefaultDuration
  }

  /** The ffmpeg encodes _create_video_with_audio may run. */
  datatype Encode = Waveform | Plain

  /** How the waveform encode ends: with an exit code, or by raising (no
      ffmpeg, say). */
  datatype WaveformRun = WaveformExit(code: int) | WaveformRaised

  /** The environment of a video build: how the waveform encode ends,
      whether the plain encode run after a non-zero exit succeeds, whether
      the video file is on disk when it is checked, and whether the plain
      encode run by the exception handler succeeds. */
  datatype VideoRun = VideoRun(waveform: WaveformRun, plainOk: bool, written: bool, retryOk: bool)

  datatype VideoOutcome = VideoOutcome(encodes: seq<Encode>, created: bool)

  /** _create_video_with_audio: the waveform encode; on a non-zero exit the
      plain encode; if either raises, or the file is then missing, the
      exception handler runs the plain encode once more and its failure is
      final. */
  function CreateVideo(v: VideoRun): (r: VideoOutcome)
    ensures r.created <==>
      (v.waveform.WaveformExit? && v.written && (v.waveform.code == 0 || v.plainOk)) || v.retryOk
    ensures 1 <= |r.encodes| <= 3 && r.encodes[0] == Waveform
    ensures forall i :: 1 <= i < |r.encodes| ==> r.encodes[i] == Plain
    ensures |r.encodes| == 1 <==> v.waveform == WaveformExit(0) && v.written
    ensures v.waveform.WaveformRaised? ==> |r.encodes| == 2 && r.created == v.retryOk
    ensures |r.encodes| == 3 <==> v.waveform.WaveformExit? && v.waveform.code != 0 && !(v.plainOk && v.written)
    ensures !r.created ==> |r.encodes| >= 2
  {
    match v.waveform
    case WaveformRaised => VideoOutcome([Waveform, Plain], v.retryOk)
    case WaveformExit(code) =>
      if code == 0 then
        if v.written then VideoOutcome([Waveform], true)
        else VideoOutcome([Waveform, Plain], v.retryOk)
      else if v.plainOk && v.written then VideoOutcome([Waveform, Plain], true)
      else VideoOutcome([Waveform, Plain, Plain], v.retryOk)
  }

  // ---------------------------------------------------------------- generate_speech

  /** What the external services do for one request: the speech request and
      its download, the WAV conversion, the video build and the final
      duration probe. */
  datatype Services = Services(speechOk: bool, convertOk: bool, video: VideoRun, probe: Probe)

  /** The dictionary generate_speech returns ('success' is always True). */
  datatype Speech = Speech(filePath: string, fileUrl: string, format: string, duration: real)

  /** generate_speech: refuse a bad request, then name the file, request the
      speech and produce the requested format. */
  function GenerateSpeech(clientConfigured: bool, voice: string, format: string,
                          sessionId: Option<string>, uuid: string, folder: string,
                          services: Services): (r: Result<Speech, Failure>)
    ensures r.Ok? ==> r.value.format == format && r.value.duration == AudioDuration(services.probe)
  {
    var refusal := Validate(clientConfigured, voice, format);
    if refusal.Some? then Err(refusal.value)
    else if !services.speechOk then Err(GenerationFailed(SpeechRequest))
    else
      var path := PathJoin(folder, OutputName(FileId(sessionId, uuid), format));
      if format == "mp4" && !CreateVideo(services.video).created then Err(GenerationFailed(VideoCreation))
      else if format == "wav" && !services.convertOk then Err(GenerationFailed(AudioConversion))
      else Ok(Speech(path, DownloadUrl(path), format, AudioDuration(services.probe)))
  }

  /** A refused request fails the same way whatever the services would do:
      the guards run before any of them. */
  lemma RefusedBeforeServices(clientConfigured: bool, voice: string, format: string,
                              sessionId: Option<string>, uuid: string, folder: string,
                              one: Services, other: Services)
    requires Validate(clientConfigured, voice, format).Some?
    ensures GenerateSpeech(clientConfigured, voice, format, sessionId, uuid, folder, one)
         == GenerateSpeech(clientConfigured, voice, format, sessionId, uuid, folder, other)
         == Err(Validate(clientConfigured, voice, format).value)
  {
  }

  /** A request succeeds exactly when it passes the guards and every
      service its format needs succeeds. */
  lemma SpeechSucceeds(clientConfigured: bool, voice: string, format: string,
                       sessionId: Option<string>, uuid: string, folder: string, services: Services)
    ensures GenerateSpeech(clientConfigured, voice, format, sessionId, uuid, folder, services).Ok?
      <==> (clientConfigured && voice in Voices && format in Formats && services.speechOk
            && (format == "mp4" ==>
                  (services.video.waveform.WaveformExit? && services.video.written
                   && (services.video.waveform.code == 0 || services.video.plainOk))
                  || services.video.retryOk)
            && (format == "wav" ==> services.convertOk))
  {
  }

  /** The result names the file file_id.<format> in the output folder, and
      its URL is the download route followed by that name. */
  lemma SpeechNaming(clientConfigured: bool, voice: string, format: string,
                     sessionId: Option<string>, uuid: string, folder: string, services: Services)
    requires '/' !in uuid && (sessionId.Some? ==> '/' !in sessionId.value)
    requires GenerateSpeech(clientConfigured, voice, format, sessionId, uuid, folder, services).Ok?
    ensures var s := GenerateSpeech(clientConfigured, voice, format, sessionId, uuid, folder, services).value;
      var name := FileId(sessionId, uuid) + "." + format;
      && s.filePath == PathJoin(folder, name)
      && Basename(s.filePath) == name
      && s.fileUrl == DownloadPrefix + name
  {
    var name := FileId(sessionId, uuid) + "." + format;
    assert '/' !in format;
    assert '/' !in FileId(sessionId, uuid);
    assert '/' !in name;
    BasenameOfJoin(folder, name);
  }

  // ---------------------------------------------------------------- get_file_info

  datatype FileInfo = FileInfo(filename: string, size: nat, duration: real, format: string)

  /** get_file_info: nothing for a missing file or a failing size lookup;
      otherwise the name, size, probed duration and the text after the last
      dot of the name. */
  function GetFileInfo(filename: string, onDisk: bool, size: Option<nat>, probe: Probe): (r: Option<FileInfo>)
    ensures r.Some? <==> onDisk && size.Some?
    ensures r.Some? ==> var f := r.value.format;
      && r.value.filename == filename && r.value.size == size.value
      && r.value.duration == AudioDuration(probe)
      && '.' !in f && |f| <= |filename| && f == filename[|filename| - |f|..]
      && (|f| < |filename| ==> filename[|filename| - |f| - 1] == '.')
      && ('.' !in filename ==> f == filename)
  {
    if !onDisk || size.None? then None
    else
      SplitLast(filename, '.');
      var fields := SplitOn(filename, '.');
      assert '.' !in fields[|fields| - 1];
      Some(FileInfo(filename, size.value, AudioDuration(probe), Last(fields)))
  }

  /** The format get_file_info reports for a generated file is the format it
      was generated in. */
  lemma FileInfoOfOutput(fileId: string, format: string, size: nat, probe: Probe)
    requires '.' !in format
    ensures GetFileInfo(OutputName(fileId, format), true, Some(size), probe).value.format == format
  {
    LastAfterSep(fileId, format, '.');
  }
}
