/** The pure rules of the media repository: how raw ffprobe output becomes the
    server's `VideoInfo`, the chroma subsampling of a resized image, the
    two-pass guard of a transcode, and `chainPath`. ffprobe, sharp and ffmpeg
    themselves are not modelled. */
module MediaRepository {
  import opened Common

  /** A JavaScript number that may be `NaN`: `None` stands for `NaN`. */
  type Num = Option<int>

  /** One stream as ffprobe reports it; absent fields are `None`. */
  datatype RawStream = RawStream(
    index: int,
    codecType: Option<string>,
    codecName: Option<string>,
    height: Option<int>,
    width: Option<int>,
    nbFrames: Option<string>,
    rotation: Option<string>,
    colorTransfer: Option<string>,
    bitRate: Option<string>)

  /** The container as ffprobe reports it. */
  datatype RawFormat = RawFormat(
    formatName: Option<string>,
    formatLongName: Option<string>,
    duration: Option<int>,
    bitRate: Option<int>)

  datatype RawProbe = RawProbe(format: RawFormat, streams: seq<RawStream>)

  datatype VideoStreamInfo = VideoStreamInfo(
    index: int,
    height: int,
    width: int,
    codecName: Option<string>,
    codecType: Option<string>,
    frameCount: Num,
    rotation: Num,
    isHDR: bool,
    bitrate: Num)

  datatype AudioStreamInfo = AudioStreamInfo(
    index: int,
    codecType: Option<string>,
    codecName: Option<string>,
    frameCount: Num)

  datatype VideoFormat = VideoFormat(
    formatName: Option<string>,
    formatLongName: Option<string>,
    duration: int,
    bitrate: int)

  datatype VideoInfo = VideoInfo(
    format: VideoFormat,
    videoStreams: seq<VideoStreamInfo>,
    audioStreams: seq<AudioStreamInfo>)

  /** The transfer characteristics of HDR video: PQ and HLG. */
  const HdrTransfers: set<string> := {"smpte2084", "arib-std-b67"}

  predicate IsVideo(s: RawStream) {
    s.codecType == Some("video")
  }

  predicate IsAudio(s: RawStream) {
    s.codecType == Some("audio")
  }

  /** JavaScript's `x || 0` on a number that may be absent. */
  function OrZero(x: Option<int>): int {
    match x
    case Some(v) => v
    case None => 0
  }

  /** `Number.parseInt(x ?? '0')`. */
  function ParseOrZero(x: Option<string>): Num {
    ParseInt(x.GetOr("0"))
  }

  lemma ParseOfZero()
    ensures ParseInt("0") == Some(0)
  {
    assert NatToString(0) == "0";
    ParseIntNumeral(0, "");
    assert NatToString(0) + "" == "0";
  }

  /** One raw video stream as the server sees it: `h265` is renamed `hevc`,
      absent dimensions read as 0, and HDR means a PQ or HLG transfer. */
  function ToVideoStream(s: RawStream): (v: VideoStreamInfo)
    ensures v.index == s.index && v.codecType == s.codecType
    ensures v.codecName != Some("h265")
    ensures s.codecName != Some("h265") ==> v.codecName == s.codecName
    ensures s.codecName == Some("h265") ==> v.codecName == Some("hevc")
    ensures v.isHDR <==> s.colorTransfer.Some? && s.colorTransfer.value in HdrTransfers
  {
    VideoStreamInfo(
      index := s.index,
      height := OrZero(s.height),
      width := OrZero(s.width),
      codecName := if s.codecName == Some("h265") then Some("hevc") else s.codecName,
      codecType := s.codecType,
      frameCount := ParseOrZero(s.nbFrames),
      rotation := ParseOrZero(s.rotation),
      isHDR := s.colorTransfer == Some("smpte2084") || s.colorTransfer == Some("arib-std-b67"),
      bitrate := ParseOrZero(s.bitRate))
  }

  /** One raw audio stream as the server sees it; the codec name is kept. */
  function ToAudioStream(s: RawStream): (a: AudioStreamInfo)
    ensures a.index == s.index && a.codecType == s.codecType && a.codecName == s.codecName
  {
    AudioStreamInfo(s.index, s.codecType, s.codecName, ParseOrZero(s.nbFrames))
  }

  /** Missing fields of a stream read as 0: dimensions, frame count, rotation
      and bitrate. */
  lemma MissingFieldsAreZero(s: RawStream)
    ensures s.height.None? ==> ToVideoStream(s).height == 0
    ensures s.width.None? ==> ToVideoStream(s).width == 0
    ensures s.nbFrames.None? ==> ToVideoStream(s).frameCount == Some(0) && ToAudioStream(s).frameCount == Some(0)
    ensures s.rotation.None? ==> ToVideoStream(s).rotation == Some(0)
    ensures s.bitRate.None? ==> ToVideoStream(s).bitrate == Some(0)
  {
    ParseOfZero();
  }

  /** The `probe` result mapping. */
  function Probe(raw: RawProbe): (info: VideoInfo)
    ensures |info.videoStreams| + |info.audioStreams| <= |raw.streams|
    ensures info.format.formatName == raw.format.formatName
    ensures raw.format.duration.None? ==> info.format.duration == 0
    ensures raw.format.bitRate.None? ==> info.format.bitrate == 0
  {
    FilterMapDisjoint(raw.streams, IsVideo, IsAudio, ToVideoStream, ToAudioStream);
    VideoInfo(
      VideoFormat(raw.format.formatName, raw.format.formatLongName, OrZero(raw.format.duration), raw.format.bitRate.GetOr(0)),
      FilterMap(raw.streams, IsVideo, ToVideoStream),
      FilterMap(raw.streams, IsAudio, ToAudioStream))
  }

  /** The video streams are exactly the raw streams of type `video`, and the
      audio streams exactly those of type `audio`, each in input order: probing
      two stream lists one after the other gives the two results joined, and a
      single stream lands in the list of its own type only. */
  lemma ProbeStreams(format: RawFormat, xs: seq<RawStream>, ys: seq<RawStream>, s: RawStream)
    ensures Probe(RawProbe(format, xs + ys)).videoStreams
      == Probe(RawProbe(format, xs)).videoStreams + Probe(RawProbe(format, ys)).videoStreams
    ensures Probe(RawProbe(format, xs + ys)).audioStreams
      == Probe(RawProbe(format, xs)).audioStreams + Probe(RawProbe(format, ys)).audioStreams
    ensures Probe(RawProbe(format, [s])).videoStreams == (if IsVideo(s) then [ToVideoStream(s)] else [])
    ensures Probe(RawProbe(format, [s])).audioStreams == (if IsAudio(s) then [ToAudioStream(s)] else [])
  {
    FilterMapAppend(xs, ys, IsVideo, ToVideoStream);
    FilterMapAppend(xs, ys, IsAudio, ToAudioStream);
    FilterMapSingle(s, IsVideo, ToVideoStream);
    FilterMapSingle(s, IsAudio, ToAudioStream);
  }

  /** Every probed video stream comes from a raw `video` stream, and every raw
      `video` stream is probed; the same for audio. */
  lemma ProbeMembers(raw: RawProbe)
    ensures forall v :: v in Probe(raw).videoStreams ==>
      exists i :: 0 <= i < |raw.streams| && IsVideo(raw.streams[i]) && v == ToVideoStream(raw.streams[i])
    ensures forall i :: 0 <= i < |raw.streams| && IsVideo(raw.streams[i]) ==>
      ToVideoStream(raw.streams[i]) in Probe(raw).videoStreams
    ensures forall a :: a in Probe(raw).audioStreams ==>
      exists i :: 0 <= i < |raw.streams| && IsAudio(raw.streams[i]) && a == ToAudioStream(raw.streams[i])
    ensures forall i :: 0 <= i < |raw.streams| && IsAudio(raw.streams[i]) ==>
      ToAudioStream(raw.streams[i]) in Probe(raw).audioStreams
  {
    FilterMapMembers(raw.streams, IsVideo, ToVideoStream);
    FilterMapMembers(raw.streams, IsAudio, ToAudioStream);
  }

  /** The colorspaces the thumbnail settings offer. */
  datatype Colorspace = Srgb | P3

  /** The colour handling sharp is asked for when resizing. */
  datatype ResizeSettings = ResizeSettings(pipeline: string, iccProfile: Colorspace, chromaSubsampling: string)

  /** Full-resolution chroma from quality 80 up, halved below. */
  function ChromaSubsampling(quality: int): (c: string)
    ensures c == "4:4:4" || c == "4:2:0"
    ensures c == "4:4:4" <==> quality >= 80
  {
    if quality >= 80 then "4:4:4" else "4:2:0"
  }

  /** Raising the quality never lowers the chroma resolution. */
  lemma ChromaMonotone(q1: int, q2: int)
    requires q1 <= q2 && ChromaSubsampling(q1) == "4:4:4"
    ensures ChromaSubsampling(q2) == "4:4:4"
  {
  }

  /** The settings `resize` passes to sharp: an sRGB target works in 8-bit
      sRGB, anything else in 16-bit RGB, and the ICC profile is the target's. */
  function Resize(colorspace: Colorspace, quality: int): (r: ResizeSettings)
    ensures r.pipeline == "srgb" <==> colorspace == Srgb
    ensures r.pipeline == "srgb" || r.pipeline == "rgb16"
    ensures r.iccProfile == colorspace
    ensures r.chromaSubsampling == "4:4:4" <==> quality >= 80
  {
    ResizeSettings(if colorspace == Srgb then "srgb" else "rgb16", colorspace, ChromaSubsampling(quality))
  }

  /** Where ffmpeg writes: a file path or a writable stream. */
  datatype Output = FileOutput(path: string) | StreamOutput

  datatype TranscodeOptions = TranscodeOptions(inputOptions: seq<string>, outputOptions: seq<string>, twoPass: bool)

  /** One ffmpeg run: input, output, the configured options and the extra
      options of its pass. */
  datatype FfmpegCall = FfmpegCall(input: string, output: Output, options: TranscodeOptions, extra: seq<string>)

  /** The ffmpeg runs of a transcode, in order, and the files removed after
      the last one. */
  datatype TranscodePlan = TranscodePlan(calls: seq<FfmpegCall>, cleanup: seq<string>)

  const TwoPassStreamError := "Two-pass transcoding does not support writing to a stream"

  /** `transcode`: one run, or for two-pass a first run that writes only its
      log (to `/dev/null`) and a second that writes the output from that log.
      Two-pass output to a stream is refused before ffmpeg is run at all. */
  function Transcode(input: string, output: Output, options: TranscodeOptions): (r: Result<TranscodePlan, string>)
    ensures r.Err? <==> options.twoPass && output.StreamOutput?
    ensures r.Err? ==> r.error == TwoPassStreamError
    ensures r.Ok? ==> |r.value.calls| > 0 && r.value.calls[|r.value.calls| - 1].output == output
    ensures r.Ok? ==> forall c :: c in r.value.calls ==> c.input == input && c.options == options
    ensures r.Ok? && !options.twoPass ==> |r.value.calls| == 1 && r.value.cleanup == []
    ensures r.Ok? && options.twoPass ==>
      && |r.value.calls| == 2
      && r.value.calls[0].output == FileOutput("/dev/null")
      && r.value.calls[0].extra == ["-pass", "1", "-passlogfile", output.path, "-f null"]
      && r.value.calls[1].extra == ["-pass", "2", "-passlogfile", output.path]
      && r.value.cleanup == [output.path + "-0.log", output.path + "-0.log.mbtree"]
  {
    if !options.twoPass then Ok(TranscodePlan([FfmpegCall(input, output, options, [])], []))
    else match output
      case StreamOutput => Err(TwoPassStreamError)
      case FileOutput(path) =>
        Ok(TranscodePlan(
          [FfmpegCall(input, FileOutput("/dev/null"), options, ["-pass", "1", "-passlogfile", path, "-f null"]),
           FfmpegCall(input, output, options, ["-pass", "2", "-passlogfile", path])],
          [path + "-0.log", path + "-0.log.mbtree"]))
  }

  /** The value an ffmpeg argument list gives `flag`: the argument after the
      flag's first occurrence. */
  function OptionValue(args: seq<string>, flag: string): Option<string>
    decreases |args|
  {
    if |args| < 2 then None
    else if args[0] == flag then Some(args[1])
    else OptionValue(args[1..], flag)
  }

  /** The statistics files an ffmpeg first pass writes for output stream
      `stream` under the `-passlogfile` prefix: the log `<prefix>-<stream>.log`
      and, for the x264 and x265 encoders, its macroblock-tree companion with
      `.mbtree` appended. */
  function PassLogFiles(prefix: string, stream: nat): set<string> {
    var log := prefix + "-" + NatToString(stream) + ".log";
    {log, log + ".mbtree"}
  }

  /** A two-pass transcode runs pass 1 and then pass 2 on the same input with
      the same options and the same log prefix, the output's path, and what it
      removes afterwards is exactly what the first pass wrote for the video
      stream, the first output stream. */
  lemma TwoPassCleansItsOwnLog(input: string, path: string, options: TranscodeOptions)
    requires options.twoPass
    ensures var r := Transcode(input, FileOutput(path), options);
      && r.Ok? && |r.value.calls| == 2
      && var first := r.value.calls[0];
         var second := r.value.calls[1];
         && first.input == input && second.input == input
         && first.options == options && second.options == options
         && OptionValue(first.extra, "-pass") == Some("1")
         && OptionValue(second.extra, "-pass") == Some("2")
         && OptionValue(first.extra, "-passlogfile") == Some(path)
         && OptionValue(second.extra, "-passlogfile") == Some(path)
         && |r.value.cleanup| == 2
         && (set f | f in r.value.cleanup) == PassLogFiles(path, 0)
  {
    var r := Transcode(input, FileOutput(path), options);
    var first := r.value.calls[0];
    assert first.extra[1..] == ["1", "-passlogfile", path, "-f null"];
    assert first.extra[1..][1..] == ["-passlogfile", path, "-f null"];
    var second := r.value.calls[1];
    assert second.extra[1..] == ["2", "-passlogfile", path];
    assert second.extra[1..][1..] == ["-passlogfile", path];
    assert "-pass" != "-passlogfile" && "1" != "-passlogfile" && "2" != "-passlogfile";
    assert OptionValue(first.extra, "-passlogfile") == OptionValue(first.extra[1..][1..], "-passlogfile");
    assert OptionValue(second.extra, "-passlogfile") == OptionValue(second.extra[1..][1..], "-passlogfile");
    assert NatToString(0) == "0";
    assert path + "-" + "0" + ".log" == path + "-0.log";
    assert path + "-0.log" + ".mbtree" == path + "-0.log.mbtree";
  }

  /** Appends `path` to a `:`-separated search path, adding the separator
      only when `existing` does not already end in one. */
  function ChainPath(existing: string, path: string): (r: string)
    ensures StartsWith(r, existing) && EndsWith(r, path)
    ensures |r| == |existing| + |path| + (if EndsWith(existing, ":") then 0 else 1)
    ensures EndsWith(r[..|r| - |path|], ":")
  {
    var separator := if EndsWith(existing, ":") then "" else ":";
    assert (existing + separator + path)[..|existing| + |separator|] == existing + separator;
    existing + separator + path
  }

  /** Chaining two entries in turn separates each by exactly one `:`: the
      second entry is never glued onto the first. */
  lemma {:induction false} ChainPathTwice(existing: string, p: string, q: string)
    requires |p| > 0 && p[|p| - 1] != ':'
    ensures ChainPath(ChainPath(existing, p), q) == ChainPath(existing, p) + ":" + q
  {
    var c := ChainPath(existing, p);
    assert c[|c| - 1] == p[|p| - 1];
    assert !EndsWith(c, ":");
  }
}
