/** The decisions of the media service: whether a video's audio and video must
    be transcoded and into what target, how a bitrate setting is read, when an
    image counts as sRGB, which stream is the main one, which thumbnail jobs are
    planned, the guards of a video conversion, which files an asset migration
    moves, and which encoder configuration is chosen. Encoders, the database
    and the job queue are outside the model; what the service asks of them is
    returned as data. */
module MediaService {
  import opened Common
  import opened MediaRepository
  import Relocation

  datatype TranscodePolicy = TranscodeAll | TranscodeOptimal | TranscodeBitrate | TranscodeRequired | TranscodeDisabled

  datatype TranscodeTarget = TargetNone | TargetAudio | TargetVideo | TargetAll

  datatype VideoCodec = H264 | Hevc | Vp9

  datatype AudioCodec = Mp3 | Aac | Libopus

  datatype HwAccel = Nvenc | Qsv | Vaapi | Rkmpp | AccelDisabled

  function VideoCodecName(c: VideoCodec): string {
    match c
    case H264 => "h264"
    case Hevc => "hevc"
    case Vp9 => "vp9"
  }

  function AudioCodecName(c: AudioCodec): string {
    match c
    case Mp3 => "mp3"
    case Aac => "aac"
    case Libopus => "libopus"
  }

  /** The ffmpeg part of the system configuration. */
  datatype FfmpegConfig = FfmpegConfig(
    transcode: TranscodePolicy,
    targetResolution: string,
    maxBitrate: string,
    acceptedVideoCodecs: seq<VideoCodec>,
    acceptedAudioCodecs: seq<AudioCodec>,
    targetVideoCodec: VideoCodec,
    accel: HwAccel)

  /** `accepted.includes(name)`: an absent codec name is never accepted. */
  predicate VideoCodecAccepted(accepted: seq<VideoCodec>, name: Option<string>) {
    name.Some? && exists c :: c in accepted && VideoCodecName(c) == name.value
  }

  predicate AudioCodecAccepted(accepted: seq<AudioCodec>, name: Option<string>) {
    name.Some? && exists c :: c in accepted && AudioCodecName(c) == name.value
  }

  /** Whether the audio stream must be re-encoded. */
  function IsAudioTranscodeRequired(config: FfmpegConfig, stream: Option<AudioStreamInfo>): (r: bool)
    ensures stream.None? ==> !r
    ensures config.transcode == TranscodeDisabled ==> !r
    ensures stream.Some? && config.transcode == TranscodeAll ==> r
    ensures stream.Some? && config.transcode in {TranscodeRequired, TranscodeOptimal, TranscodeBitrate} ==>
      (r <==> !AudioCodecAccepted(config.acceptedAudioCodecs, stream.value.codecName))
  {
    match stream
    case None => false
    case Some(s) =>
      match config.transcode
      case TranscodeDisabled => false
      case TranscodeAll => true
      case _ => !AudioCodecAccepted(config.acceptedAudioCodecs, s.codecName)
  }

  /** `parseBitrateToBps`: the leading integer of the setting, in bits per
      second when the setting ends in `k` or `m` (either case); 0 when there
      is no leading integer. */
  function ParseBitrateToBps(bitrate: string): (bps: int)
    ensures ParseInt(bitrate).None? ==> bps == 0
    ensures ParseInt(bitrate).Some? && EndsWith(ToLower(bitrate), "k") ==> bps == ParseInt(bitrate).value * 1000
    ensures ParseInt(bitrate).Some? && EndsWith(ToLower(bitrate), "m") ==> bps == ParseInt(bitrate).value * 1000000
    ensures ParseInt(bitrate).Some? && !EndsWith(ToLower(bitrate), "k") && !EndsWith(ToLower(bitrate), "m") ==>
      bps == ParseInt(bitrate).value
  {
    match ParseInt(bitrate)
    case None => 0
    case Some(value) =>
      var lower := ToLower(bitrate);
      if EndsWith(lower, "k") then value * 1000
      else if EndsWith(lower, "m") then value * 1000000
      else value
  }

  /** A bitrate written as a bare number reads back as that number. */
  lemma BitrateNumber(n: nat)
    ensures ParseBitrateToBps(NatToString(n)) == n
  {
    var digits := NatToString(n);
    ParseIntNumeral(n, "");
    assert digits + "" == digits;
    assert ParseInt(digits) == Some(n);
    var last := digits[|digits| - 1];
    assert IsDigit(last) && LowerChar(last) == last;
    LowerEndsWith(digits, 'k');
    LowerEndsWith(digits, 'm');
    assert !EndsWith(ToLower(digits), "k") && !EndsWith(ToLower(digits), "m");
  }

  /** A string ending in a unit letter ends, lower-cased, in `k` exactly for
      `k` and `K`, and in `m` exactly for `m` and `M`. */
  lemma UnitLetter(s: string, unit: char)
    requires |s| > 0 && s[|s| - 1] == unit && unit in "kKmM"
    ensures EndsWith(ToLower(s), "k") <==> unit in "kK"
    ensures EndsWith(ToLower(s), "m") <==> unit in "mM"
  {
    LowerEndsWith(s, 'k');
    LowerEndsWith(s, 'm');
    if unit == 'K' {
      assert LowerChar(unit) == 'k';
    } else if unit == 'M' {
      assert LowerChar(unit) == 'm';
    }
  }

  /** A bitrate written as a number and a unit letter, in either case, reads
      back as that many bits per second. */
  lemma BitrateUnit(n: nat, unit: char)
    requires unit in "kKmM"
    ensures ParseBitrateToBps(NatToString(n) + [unit]) == n * (if unit in "kK" then 1000 else 1000000)
  {
    var s := NatToString(n) + [unit];
    ParseIntNumeral(n, [unit]);
    UnitLetter(s, unit);
  }

  /** Scaling applies when the target resolution is a number below the
      stream's shorter side; `original` turns it off. */
  predicate LargerThanTargetResolution(config: FfmpegConfig, stream: VideoStreamInfo) {
    var shorter := if stream.height < stream.width then stream.height else stream.width;
    config.targetResolution != "original"
    && ParseInt(config.targetResolution).Some? && shorter > ParseInt(config.targetResolution).value
  }

  /** A `NaN` stream bitrate is never larger. */
  predicate LargerThanTargetBitrate(config: FfmpegConfig, stream: VideoStreamInfo) {
    stream.bitrate.Some? && stream.bitrate.value > ParseBitrateToBps(config.maxBitrate)
  }

  /** Transcoding is required whatever the policy allows: an unaccepted codec
      or HDR video. */
  predicate VideoRequired(config: FfmpegConfig, stream: VideoStreamInfo) {
    !VideoCodecAccepted(config.acceptedVideoCodecs, stream.codecName) || stream.isHDR
  }

  /** Whether the video stream must be re-encoded. */
  function IsVideoTranscodeRequired(config: FfmpegConfig, stream: Option<VideoStreamInfo>): (r: bool)
    ensures stream.None? ==> !r
    ensures config.transcode == TranscodeDisabled ==> !r
    ensures stream.Some? && config.transcode == TranscodeAll ==> r
    ensures stream.Some? && config.transcode == TranscodeRequired ==> (r <==> VideoRequired(config, stream.value))
    ensures stream.Some? && config.transcode == TranscodeOptimal ==>
      (r <==> VideoRequired(config, stream.value) || LargerThanTargetResolution(config, stream.value))
    ensures stream.Some? && config.transcode == TranscodeBitrate ==>
      (r <==> VideoRequired(config, stream.value) || LargerThanTargetBitrate(config, stream.value))
  {
    match stream
    case None => false
    case Some(s) =>
      match config.transcode
      case TranscodeDisabled => false
      case TranscodeAll => true
      case TranscodeRequired => VideoRequired(config, s)
      case TranscodeOptimal => VideoRequired(config, s) || LargerThanTargetResolution(config, s)
      case TranscodeBitrate => VideoRequired(config, s) || LargerThanTargetBitrate(config, s)
  }

  /** `p` never asks for less transcoding than `q`: DISABLED below REQUIRED,
      REQUIRED below OPTIMAL and BITRATE, everything below ALL. */
  predicate AtLeastAsEager(p: TranscodePolicy, q: TranscodePolicy) {
    p == q || q == TranscodeDisabled || p == TranscodeAll
    || (q == TranscodeRequired && p in {TranscodeOptimal, TranscodeBitrate})
  }

  /** A more eager policy transcodes whatever a less eager one does. */
  lemma PolicyOrder(config: FfmpegConfig, video: Option<VideoStreamInfo>, audio: Option<AudioStreamInfo>, p: TranscodePolicy, q: TranscodePolicy)
    requires AtLeastAsEager(p, q)
    ensures IsVideoTranscodeRequired(config.(transcode := q), video) ==> IsVideoTranscodeRequired(config.(transcode := p), video)
    ensures IsAudioTranscodeRequired(config.(transcode := q), audio) ==> IsAudioTranscodeRequired(config.(transcode := p), audio)
  {
  }

  predicate TranscodesAudio(t: TranscodeTarget) {
    t == TargetAudio || t == TargetAll
  }

  predicate TranscodesVideo(t: TranscodeTarget) {
    t == TargetVideo || t == TargetAll
  }

  /** What to transcode: the target covers audio exactly when audio is
      required and video exactly when video is required; no streams at all
      means nothing. */
  function GetTranscodeTarget(config: FfmpegConfig, video: Option<VideoStreamInfo>, audio: Option<AudioStreamInfo>): (t: TranscodeTarget)
    ensures video.None? && audio.None? ==> t == TargetNone
    ensures TranscodesAudio(t) <==> IsAudioTranscodeRequired(config, audio)
    ensures TranscodesVideo(t) <==> IsVideoTranscodeRequired(config, video)
  {
    if video.None? && audio.None? then TargetNone
    else
      var audioRequired := IsAudioTranscodeRequired(config, audio);
      var videoRequired := IsVideoTranscodeRequired(config, video);
      if audioRequired && videoRequired then TargetAll
      else if audioRequired then TargetAudio
      else if videoRequired then TargetVideo
      else TargetNone
  }

  /** The EXIF fields `isSRGB` reads. */
  datatype ExifInfo = ExifInfo(colorspace: Option<string>, profileDescription: Option<string>, bitsPerSample: Option<int>)

  predicate MentionsSrgb(s: Option<string>) {
    s.Some? && Contains(ToLower(s.value), "srgb")
  }

  /** `isSRGB`: a colorspace or profile description decides by mentioning
      sRGB in any case; without them a bit depth decides by being 8; without
      any of these the image is taken as sRGB. Missing EXIF is all absent. */
  function IsSrgb(exif: Option<ExifInfo>): (r: bool)
    ensures var e := exif.GetOr(ExifInfo(None, None, None));
      && (Truthy(e.colorspace) || Truthy(e.profileDescription) ==>
            (r <==> MentionsSrgb(e.colorspace) || MentionsSrgb(e.profileDescription)))
      && (!Truthy(e.colorspace) && !Truthy(e.profileDescription) && e.bitsPerSample.Some? && e.bitsPerSample.value != 0 ==>
            (r <==> e.bitsPerSample.value == 8))
      && (!Truthy(e.colorspace) && !Truthy(e.profileDescription) && (e.bitsPerSample.None? || e.bitsPerSample.value == 0) ==> r)
  {
    var e := exif.GetOr(ExifInfo(None, None, None));
    if Truthy(e.colorspace) || Truthy(e.profileDescription) then
      MentionsSrgb(e.colorspace) || MentionsSrgb(e.profileDescription)
    else if e.bitsPerSample.Some? && e.bitsPerSample.value != 0 then
      e.bitsPerSample.value == 8
    else true
  }

  /** The answer does not depend on the case of the colorspace or profile. */
  lemma SrgbIgnoresCase(e: ExifInfo, colorspace: string, profile: string)
    ensures IsSrgb(Some(e.(colorspace := Some(ToLower(colorspace)), profileDescription := Some(ToLower(profile)))))
         == IsSrgb(Some(e.(colorspace := Some(colorspace), profileDescription := Some(profile))))
  {
    ToLowerIdempotent(colorspace);
    ToLowerIdempotent(profile);
  }

  /** A profile whose name starts with `sRGB`, such as the usual
      `sRGB IEC61966-2.1`, is recognised. */
  lemma SrgbProfileRecognised(e: ExifInfo, rest: string)
    ensures IsSrgb(Some(e.(profileDescription := Some("sRGB" + rest))))
  {
    var profile := "sRGB" + rest;
    var lower := ToLower(profile);
    assert profile[0] == 's' && profile[1] == 'R' && profile[2] == 'G' && profile[3] == 'B';
    assert lower[0] == 's' && lower[1] == 'r' && lower[2] == 'g' && lower[3] == 'b';
    assert lower[0..4] == "srgb";
    ContainsAt(lower, "srgb", 0);
    assert MentionsSrgb(Some(profile));
  }

  /** The index a descending stable sort by `keys` puts first: the first
      position holding the largest key. */
  function FirstMax(keys: seq<int>): (i: nat)
    requires |keys| > 0
    ensures i < |keys|
    ensures forall j :: 0 <= j < |keys| ==> keys[j] <= keys[i]
    ensures forall j :: 0 <= j < i ==> keys[j] < keys[i]
  {
    if |keys| == 1 then 0
    else
      var j := FirstMax(keys[1..]) + 1;
      assert forall k :: 1 <= k < |keys| ==> keys[k] == keys[1..][k - 1];
      if keys[0] >= keys[j] then 0 else j
  }

  /** The sort key of a frame count; a `NaN` count ranks as 0. */
  function FrameKey(n: Num): int {
    n.GetOr(0)
  }

  /** `getMainStream`: what a stable sort by descending `key` puts first, the
      stream with the largest key and the earliest of equals; none for no
      streams. */
  function MainStream<T>(streams: seq<T>, key: T -> int): (r: Option<T>)
    ensures r.None? <==> |streams| == 0
    ensures r.Some? ==>
      exists i :: 0 <= i < |streams| && streams[i] == r.value
        && (forall j :: 0 <= j < |streams| ==> key(streams[j]) <= key(r.value))
        && (forall j :: 0 <= j < i ==> key(streams[j]) < key(r.value))
  {
    if |streams| == 0 then None
    else
      var keys := seq(|streams|, k requires 0 <= k < |streams| => key(streams[k]));
      var i := FirstMax(keys);
      assert forall k :: 0 <= k < |streams| ==> keys[k] == key(streams[k]);
      Some(streams[i])
  }

  function MainVideoStream(streams: seq<VideoStreamInfo>): Option<VideoStreamInfo> {
    MainStream(streams, (v: VideoStreamInfo) => FrameKey(v.frameCount))
  }

  function MainAudioStream(streams: seq<AudioStreamInfo>): Option<AudioStreamInfo> {
    MainStream(streams, (a: AudioStreamInfo) => FrameKey(a.frameCount))
  }

  /** The first maximum is the only index with its two properties. */
  lemma FirstMaxUnique(keys: seq<int>, i: nat)
    requires i < |keys|
    requires forall j :: 0 <= j < |keys| ==> keys[j] <= keys[i]
    requires forall j :: 0 <= j < i ==> keys[j] < keys[i]
    ensures FirstMax(keys) == i
  {
  }

  /** The fields thumbnail planning reads. */
  datatype ThumbnailAsset = ThumbnailAsset(id: string, resizePath: Option<string>, webpPath: Option<string>, thumbhash: Option<seq<bv8>>)

  datatype ThumbnailJob = GenerateJpeg(id: string) | GenerateWebp(id: string) | GenerateThumbhash(id: string)

  /** The jobs planned for one asset: the JPEG thumbnail alone when forced or
      missing (the others are derived from it); otherwise a WEBP job when the
      WEBP is missing and a thumbhash job when the thumbhash is. */
  function PlanThumbnails(a: ThumbnailAsset, force: bool): (jobs: seq<ThumbnailJob>)
    ensures forall j :: j in jobs ==> j.id == a.id
    ensures force || !Truthy(a.resizePath) ==> jobs == [GenerateJpeg(a.id)]
    ensures !force && Truthy(a.resizePath) ==>
      && GenerateJpeg(a.id) !in jobs
      && (GenerateWebp(a.id) in jobs <==> !Truthy(a.webpPath))
      && (GenerateThumbhash(a.id) in jobs <==> a.thumbhash.None?)
      && |jobs| == (if !Truthy(a.webpPath) then 1 else 0) + (if a.thumbhash.None? then 1 else 0)
      && (GenerateWebp(a.id) in jobs && GenerateThumbhash(a.id) in jobs ==> jobs[0] == GenerateWebp(a.id))
  {
    if !Truthy(a.resizePath) || force then [GenerateJpeg(a.id)]
    else
      (if !Truthy(a.webpPath) then [GenerateWebp(a.id)] else [])
      + (if a.thumbhash.None? then [GenerateThumbhash(a.id)] else [])
  }

  /** The jobs for a page of assets, asset by asset. */
  function PlanAll(assets: seq<ThumbnailAsset>, force: bool): (jobs: seq<ThumbnailJob>)
    decreases |assets|
  {
    if |assets| == 0 then [] else PlanThumbnails(assets[0], force) + PlanAll(assets[1..], force)
  }

  /** Planning page by page is planning the whole list at once. */
  lemma {:induction false} PlanAllAppend(xs: seq<ThumbnailAsset>, ys: seq<ThumbnailAsset>, force: bool)
    ensures PlanAll(xs + ys, force) == PlanAll(xs, force) + PlanAll(ys, force)
    decreases |xs|
  {
    if |xs| == 0 {
      assert xs + ys == ys;
    } else {
      assert (xs + ys)[1..] == xs[1..] + ys;
      PlanAllAppend(xs[1..], ys, force);
    }
  }

  /** Forced planning is one JPEG job per asset, in order. */
  lemma {:induction false} ForcedPlanIsJpegOnly(assets: seq<ThumbnailAsset>)
    ensures PlanAll(assets, true) == seq(|assets|, i requires 0 <= i < |assets| => GenerateJpeg(assets[i].id))
    decreases |assets|
  {
    if |assets| > 0 {
      ForcedPlanIsJpegOnly(assets[1..]);
    }
  }

  /** Every planned job is for one of the assets. */
  lemma {:induction false} PlannedJobsAreForAssets(assets: seq<ThumbnailAsset>, force: bool)
    ensures forall j :: j in PlanAll(assets, force) ==> exists a :: a in assets && j.id == a.id
    decreases |assets|
  {
    if |assets| > 0 {
      PlannedJobsAreForAssets(assets[1..], force);
      forall j | j in PlanAll(assets, force)
        ensures exists a :: a in assets && j.id == a.id
      {
        if j in PlanThumbnails(assets[0], force) {
          assert assets[0] in assets;
        } else {
          var a :| a in assets[1..] && j.id == a.id;
          assert a in assets;
        }
      }
    }
  }

  /** The encoder configuration chosen: a software encoder per codec, or a
      hardware backend with what it read from the machine. */
  datatype CodecConfig =
    | H264Config
    | HevcConfig
    | Vp9Config
    | NvencConfig
    | QsvConfig(devices: seq<string>)
    | VaapiConfig(devices: seq<string>)
    | RkmppConfig(devices: seq<string>, hasOpenCL: bool)
  {
    predicate IsSoftware() {
      this == H264Config || this == HevcConfig || this == Vp9Config
    }
  }

  /** What the hardware backends find on the machine: the render devices, the
      OpenCL probe result, and which codecs each backend supports. */
  datatype HwProbe = HwProbe(devices: seq<string>, hasOpenCL: bool, supports: (HwAccel, VideoCodec) -> bool)

  datatype CodecError = UnsupportedCodec(accel: HwAccel, codec: VideoCodec)

  function SoftwareConfig(codec: VideoCodec): (c: CodecConfig)
    ensures c.IsSoftware()
  {
    match codec
    case H264 => H264Config
    case Hevc => HevcConfig
    case Vp9 => Vp9Config
  }

  function HardwareConfig(accel: HwAccel, hw: HwProbe): (c: CodecConfig)
    requires accel != AccelDisabled
    ensures !c.IsSoftware()
  {
    match accel
    case Nvenc => NvencConfig
    case Qsv => QsvConfig(hw.devices)
    case Vaapi => VaapiConfig(hw.devices)
    case Rkmpp => RkmppConfig(hw.devices, hw.hasOpenCL)
  }

  /** The accel setting that chose `c`. */
  function AccelOf(c: CodecConfig): HwAccel {
    match c
    case NvencConfig => Nvenc
    case QsvConfig(_) => Qsv
    case VaapiConfig(_) => Vaapi
    case RkmppConfig(_, _) => Rkmpp
    case _ => AccelDisabled
  }

  /** `getCodecConfig`: the software encoder of the target codec when
      acceleration is off; otherwise the backend of the accel setting, which
      fails when that backend does not support the target codec. */
  function GetCodecConfig(config: FfmpegConfig, hw: HwProbe): (r: Result<CodecConfig, CodecError>)
    ensures r.Ok? ==> AccelOf(r.value) == config.accel
    ensures config.accel == AccelDisabled ==> r.Ok? && r.value.IsSoftware() && r.value == SoftwareConfig(config.targetVideoCodec)
    ensures config.accel != AccelDisabled ==> (r.Ok? <==> hw.supports(config.accel, config.targetVideoCodec))
    ensures r.Err? ==> r.error == UnsupportedCodec(config.accel, config.targetVideoCodec)
  {
    if config.accel == AccelDisabled then Ok(SoftwareConfig(config.targetVideoCodec))
    else if hw.supports(config.accel, config.targetVideoCodec) then Ok(HardwareConfig(config.accel, hw))
    else Err(UnsupportedCodec(config.accel, config.targetVideoCodec))
  }

  datatype AssetType = Image | Video | AudioAsset | OtherAsset

  /** The fields video conversion reads. */
  datatype MediaAsset = MediaAsset(id: string, assetType: AssetType, originalPath: string, encodedVideoPath: Option<string>)

  /** What the conversion job asks of the rest of the system. */
  datatype ConversionEffect =
    | QueueDeleteFiles(files: seq<string>)
    | SetEncodedVideoPath(path: Option<string>)
    | RunTranscode(input: string, output: string, codec: CodecConfig, target: TranscodeTarget, succeeded: bool)

  /** How a job ends, normally with a status or by throwing, and what it did. */
  datatype JobOutcome = JobOutcome(result: Result<JobStatus, string>, effects: seq<ConversionEffect>)

  const TranscodeFailed := "transcode failed"

  /** The inputs a conversion needs: a video asset whose probe found a video
      stream with both dimensions and a container format. */
  predicate Convertible(asset: Option<MediaAsset>, info: VideoInfo) {
    && asset.Some? && asset.value.assetType == Video
    && |info.videoStreams| > 0 && Truthy(info.format.formatName)
    && MainVideoStream(info.videoStreams).value.height != 0
    && MainVideoStream(info.videoStreams).value.width != 0
  }

  /** `handleVideoConversion`. `output` is the encoded-video path the storage
      layout gives the asset; `transcodeOk(attempt, codec)` says whether
      ffmpeg's run number `attempt` (0 or 1) succeeds with a configuration, so
      the retry may succeed where the first run failed even with the same
      configuration. A failed transcode is retried once in software; a second
      failure is thrown. */
  function HandleVideoConversion(asset: Option<MediaAsset>, output: string, info: VideoInfo, config: FfmpegConfig,
                                 hw: HwProbe, transcodeOk: (nat, CodecConfig) -> bool): (r: JobOutcome)
    ensures !Convertible(asset, info) ==> r == JobOutcome(Ok(Failed), [])
    ensures r.result == Ok(Failed) <==>
      !Convertible(asset, info)
      || (GetTranscodeTarget(config, MainVideoStream(info.videoStreams), MainAudioStream(info.audioStreams)) != TargetNone
          && GetCodecConfig(config, hw).Err?)
    ensures (Convertible(asset, info)
             && GetTranscodeTarget(config, MainVideoStream(info.videoStreams), MainAudioStream(info.audioStreams)) != TargetNone
             && GetCodecConfig(config, hw).Ok?) ==>
        && (r.result == Ok(Success) <==>
              transcodeOk(0, GetCodecConfig(config, hw).value) || transcodeOk(1, SoftwareConfig(config.targetVideoCodec)))
        && (r.result.Ok? || r.result == Err(TranscodeFailed))
    ensures r.result == Ok(Skipped) <==>
      Convertible(asset, info)
      && GetTranscodeTarget(config, MainVideoStream(info.videoStreams), MainAudioStream(info.audioStreams)) == TargetNone
    ensures r.result == Ok(Skipped) ==>
      r.effects == (if Truthy(asset.value.encodedVideoPath)
                    then [QueueDeleteFiles([asset.value.encodedVideoPath.value]), SetEncodedVideoPath(None)]
                    else [])
    ensures r.result == Ok(Failed) ==> r.effects == []
    ensures r.result == Ok(Success) ==>
      |r.effects| >= 2 && r.effects[|r.effects| - 1] == SetEncodedVideoPath(Some(output))
      && r.effects[|r.effects| - 2].RunTranscode? && r.effects[|r.effects| - 2].succeeded
    ensures r.result.Err? ==> forall e :: e in r.effects ==> !e.SetEncodedVideoPath?
  {
    if !Convertible(asset, info) then JobOutcome(Ok(Failed), [])
    else
      var a := asset.value;
      var video := MainVideoStream(info.videoStreams);
      var audio := MainAudioStream(info.audioStreams);
      var target := GetTranscodeTarget(config, video, audio);
      if target == TargetNone then
        if Truthy(a.encodedVideoPath) then
          JobOutcome(Ok(Skipped), [QueueDeleteFiles([a.encodedVideoPath.value]), SetEncodedVideoPath(None)])
        else JobOutcome(Ok(Skipped), [])
      else
        match GetCodecConfig(config, hw)
        case Err(_) => JobOutcome(Ok(Failed), [])
        case Ok(codec) =>
          var first := RunTranscode(a.originalPath, output, codec, target, transcodeOk(0, codec));
          if transcodeOk(0, codec) then JobOutcome(Ok(Success), [first, SetEncodedVideoPath(Some(output))])
          else
            var software := GetCodecConfig(config.(accel := AccelDisabled), hw).value;
            var second := RunTranscode(a.originalPath, output, software, target, transcodeOk(1, software));
            if transcodeOk(1, software) then JobOutcome(Ok(Success), [first, second, SetEncodedVideoPath(Some(output))])
            else JobOutcome(Err(TranscodeFailed), [first, second])
  }

  /** Every transcode runs on the asset's original into the encoded path, for
      a target that covers some stream; a second run happens only after the
      first failed, and it uses the software encoder of the target codec. */
  lemma ConversionRuns(asset: Option<MediaAsset>, output: string, info: VideoInfo, config: FfmpegConfig,
                       hw: HwProbe, transcodeOk: (nat, CodecConfig) -> bool)
    ensures var r := HandleVideoConversion(asset, output, info, config, hw, transcodeOk);
      && (forall e :: e in r.effects && e.RunTranscode? ==>
            e.input == asset.value.originalPath && e.output == output && e.target != TargetNone)
      && (|r.effects| >= 2 && r.effects[0].RunTranscode? && r.effects[1].RunTranscode? ==>
            !r.effects[0].succeeded && r.effects[1].codec == SoftwareConfig(config.targetVideoCodec))
  {
  }

  /** `handleAssetMigration`: the journal keys under which the derived files
      of an existing asset are moved, in this order; the original is left to
      the storage template. */
  function HandleAssetMigration(id: Relocation.AssetId, assetExists: bool): (r: (JobStatus, seq<Relocation.JournalKey>))
    ensures !assetExists ==> r == (Failed, [])
    ensures assetExists ==> r.0 == Success && |r.1| == 3
    ensures assetExists ==> forall k :: k != Relocation.Original ==> Relocation.JournalKey(id, k) in r.1
    ensures forall key :: key in r.1 ==> key.entityId == id
    ensures Relocation.JournalKey(id, Relocation.Original) !in r.1
    ensures forall i, j :: 0 <= i < j < |r.1| ==> r.1[i] != r.1[j]
  {
    if !assetExists then (Failed, [])
    else
      var keys := [Relocation.JournalKey(id, Relocation.JpegThumbnail),
                   Relocation.JournalKey(id, Relocation.WebpThumbnail),
                   Relocation.JournalKey(id, Relocation.EncodedVideo)];
      assert forall k: Relocation.AssetPathType :: k != Relocation.Original ==>
        Relocation.JournalKey(id, k) == keys[0] || Relocation.JournalKey(id, k) == keys[1]
        || Relocation.JournalKey(id, k) == keys[2];
      (Success, keys)
  }
}
