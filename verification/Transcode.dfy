/** The video transcode planner: internal/convert/avopts.go, avduration.go and the transcode
    branch of av.go. Codecs and formats keep the names ffprobe and the service give them. */
module Transcode {
  import opened Wrappers

  /** A video stream of the source, as probed; embedded cover art counts as one. */
  datatype Stream = Stream(index: int, codec: string, width: int, height: int, cover: bool)

  function Area(s: Stream): int { s.width * s.height }

  datatype Target = Mp4 | Webm

  /** AVOpts: absent fields are None, 0 and "". */
  datatype Options = Options(timecode: Option<real>, height: int, codec: string)

  const MAX_ENCODE_HEIGHT := 1080
  const MAX_ENCODE_WIDTH := 1920

  /** ParseAVOpts accepts the fields. */
  predicate Parsed(o: Options) {
    && (o.timecode.Some? ==> o.timecode.value >= 0.0)
    && (o.height == 0 || o.height == 480 || o.height == 720 || o.height == 1080)
    && (o.codec == "" || o.codec == "h264" || o.codec == "hevc")
  }

  /** ValidateAVApplicability, for the av engine and a transcode target. */
  predicate Applicable(target: Target, o: Options) {
    o.timecode.None? && (o.codec == "hevc" ==> target == Mp4)
  }

  // ----- which stream is the video -----

  ghost predicate AllCover(streams: seq<Stream>) { forall s <- streams :: s.cover }

  ghost predicate Eligible(streams: seq<Stream>, i: nat) {
    i < |streams| && (!streams[i].cover || AllCover(streams))
  }

  /** The first of the largest streams that are not cover art, or of all if all are. */
  ghost predicate IsPrimary(streams: seq<Stream>, i: nat) {
    && Eligible(streams, i)
    && forall j: nat :: Eligible(streams, j) ==>
         Area(streams[j]) <= Area(streams[i]) && (j < i ==> Area(streams[j]) < Area(streams[i]))
  }

  lemma OnePrimary(streams: seq<Stream>, i: nat, j: nat)
    requires IsPrimary(streams, i) && IsPrimary(streams, j)
    ensures i == j
  {
  }

  /** The first largest of the streams that `keep` among the first `n`. */
  ghost predicate Best(streams: seq<Stream>, keepCover: bool, n: nat, at: nat)
    requires n <= |streams|
  {
    && at < n && (keepCover || !streams[at].cover)
    && forall j :: 0 <= j < n && (keepCover || !streams[j].cover) ==>
         Area(streams[j]) <= Area(streams[at]) && (j < at ==> Area(streams[j]) < Area(streams[at]))
  }

  /** avPrimaryVideoStream. */
  method PrimaryStream(streams: seq<Stream>) returns (best: Stream, found: bool)
    ensures found <==> streams != []
    ensures found ==> exists i: nat :: IsPrimary(streams, i) && streams[i] == best
  {
    best, found := Stream(0, "", 0, 0, false), false;
    ghost var at: nat := 0;
    var i := 0;
    while i < |streams|
      invariant 0 <= i <= |streams|
      invariant !found ==> forall j :: 0 <= j < i ==> streams[j].cover
      invariant found ==> Best(streams, false, i, at) && best == streams[at]
    {
      var s := streams[i];
      if !s.cover && (!found || s.width * s.height > best.width * best.height) {
        best, found, at := s, true, i;
      }
      i := i + 1;
    }
    if found {
      assert IsPrimary(streams, at);
      return;
    }
    i := 0;
    while i < |streams|
      invariant 0 <= i <= |streams|
      invariant !found ==> i == 0
      invariant found ==> Best(streams, true, i, at) && best == streams[at]
    {
      var s := streams[i];
      if !found || s.width * s.height > best.width * best.height {
        best, found, at := s, true, i;
      }
      i := i + 1;
    }
    assert found ==> IsPrimary(streams, at);
  }

  /** avMaxVideoHeight: over all streams, cover art included. */
  method MaxHeight(streams: seq<Stream>) returns (max: int)
    ensures max >= 0 && forall s <- streams :: s.height <= max
    ensures max == 0 || exists s <- streams :: s.height == max
  {
    max := 0;
    var i := 0;
    while i < |streams|
      invariant 0 <= i <= |streams| && max >= 0
      invariant forall j :: 0 <= j < i ==> streams[j].height <= max
      invariant max == 0 || exists j :: 0 <= j < i && streams[j].height == max
    {
      if streams[i].height > max {
        max := streams[i].height;
      }
      i := i + 1;
    }
  }

  // ----- the plan -----

  datatype Encoder = X264 | X265 | Vp9
  datatype AudioEncoder = Aac | Opus

  datatype Reject =
    | NoVideoStream | Implausible | DurationExceeded | ResolutionExceeded | NoDiskSpace | EncodeResolutionExceeded

  /** What ffmpeg is asked to do: the video stream it maps, and how it treats it. */
  datatype Plan =
    | Copy(index: int)
    | Encode(index: int, video: Encoder, crf: int, audio: AudioEncoder, scale: int)
    | Rejected(why: Reject)

  /** avStreamCopyLegal. */
  predicate CopyLegal(target: Target, video: string, audio: string) {
    match target
    case Mp4 => video == "h264" && audio == "aac"
    case Webm => video == "vp9" && audio == "opus"
  }

  /** avStreamCopyEligible. */
  predicate CopyEligible(target: Target, o: Options, primary: Stream, audio: string) {
    CopyLegal(target, primary.codec, audio) && o.height == 0 && (o.codec == "" || o.codec == primary.codec)
  }

  predicate EncodeBounded(s: Stream) { s.height <= MAX_ENCODE_HEIGHT && s.width <= MAX_ENCODE_WIDTH }

  /** convertTranscode, up to the ffmpeg call. */
  function Decide(target: Target, o: Options, primary: Stream, audio: string): Plan {
    if CopyEligible(target, o, primary, audio) then Copy(primary.index)
    else if !EncodeBounded(primary) then Rejected(EncodeResolutionExceeded)
    else
      match target
      case Mp4 =>
        if o.codec == "hevc" then Encode(primary.index, X265, 28, Aac, o.height)
        else Encode(primary.index, X264, 23, Aac, o.height)
      case Webm => Encode(primary.index, Vp9, 0, Opus, o.height)
  }

  // ----- what a plan delivers -----

  /** A delivered file: its codecs, and its height. */
  datatype Output = Output(video: string, audio: string, height: int)

  /** What ffmpeg makes of a plan. An absent audio track ("") stays absent when re-encoding. */
  function Delivered(plan: Plan, primary: Stream, audio: string): Output
    requires !plan.Rejected?
  {
    match plan
    case Copy(_) => Output(primary.codec, audio, primary.height)
    case Encode(_, video, _, encoder, scale) =>
      Output(
        match video case X264 => "h264" case X265 => "hevc" case Vp9 => "vp9",
        if audio == "" then "" else match encoder case Aac => "aac" case Opus => "opus",
        if scale == 0 then primary.height else scale)
  }

  /** The container's codec contract: mp4 holds H.264, or HEVC where asked for, and AAC; webm
      holds VP9 and Opus. */
  predicate InContract(target: Target, o: Options, out: Output) {
    match target
    case Mp4 => out.video == (if o.codec == "hevc" then "hevc" else "h264") && (out.audio == "" || out.audio == "aac")
    case Webm => out.video == "vp9" && (out.audio == "" || out.audio == "opus")
  }

  predicate HonoursHeight(o: Options, out: Output) { o.height != 0 ==> out.height == o.height }
  predicate HonoursCodec(o: Options, out: Output) { o.codec != "" ==> out.video == o.codec }

  /** The source is what the container and the options ask for, so that nothing need be encoded. */
  predicate Copyable(target: Target, o: Options, s: Stream, audio: string) {
    && o.height == 0
    && match target
       case Mp4 => s.codec == "h264" && audio == "aac" && o.codec in {"", "h264"}
       case Webm => s.codec == "vp9" && audio == "opus" && o.codec == ""
  }

  /** A plan serves a request: it maps the given stream, stays within the container's contract,
      gives the requested height, encodes no source above 1920x1080, and delivers a requested
      codec except for h264 on webm, which is accepted and not honoured. */
  ghost predicate Serves(plan: Plan, primary: Stream, audio: string, target: Target, o: Options) {
    && !plan.Rejected?
    && plan.index == primary.index
    && (plan.Copy? <==> Copyable(target, o, primary, audio))
    && (plan.Encode? ==> primary.height <= 1080 && primary.width <= 1920)
    && (plan.Encode? ==> plan.crf == (match plan.video case X264 => 23 case X265 => 28 case Vp9 => 0))
    && (plan.Copy? ==> audio != "")
    && var out := Delivered(plan, primary, audio);
       && InContract(target, o, out) && HonoursHeight(o, out)
       && (HonoursCodec(o, out) <==> !(target == Webm && o.codec == "h264"))
  }

  // ----- the guard stage -----

  const HOUR := 3_600_000_000_000
  const DEFAULT_MAX_DURATION := 4 * HOUR
  const DEFAULT_MAX_HEIGHT := 4320
  const DEFAULT_DISK_FACTOR := 3.0

  /** The converter's limits, 0 meaning the default, and what the disk offers. */
  datatype Limits = Limits(duration: int, height: int, diskFactor: real) {
    function MaxDuration(): int { if duration == 0 then DEFAULT_MAX_DURATION else duration }
    function MaxHeight(): int { if height == 0 then DEFAULT_MAX_HEIGHT else height }
    function Needed(size: nat): int {
      (size as real * if diskFactor > 0.0 then diskFactor else DEFAULT_DISK_FACTOR).Floor
    }
  }

  /** What the probe and the file system report about a source. */
  datatype Source = Source(duration: int, streams: seq<Stream>, audio: string, size: nat, free: nat)

  ghost predicate Plausible(streams: seq<Stream>) { forall s <- streams :: s.width > 0 && s.height > 0 }

  /** The first guard that refuses the source, in the order they are applied. */
  ghost function Refusal(src: Source, limits: Limits): Option<Reject> {
    if src.streams == [] then Some(NoVideoStream)
    else if !Plausible(src.streams) then Some(Implausible)
    else if src.duration > (if limits.duration == 0 then 14_400_000_000_000 else limits.duration)
        then Some(DurationExceeded)
    else if exists s <- src.streams :: s.height > (if limits.height == 0 then 4320 else limits.height)
    then Some(ResolutionExceeded)
    else
      var factor := if limits.diskFactor > 0.0 then limits.diskFactor else 3.0;
      if src.free < (src.size as real * factor).Floor then Some(NoDiskSpace) else None
  }

  /** probeVideoStreams, on the streams ffprobe lists. */
  method CheckStreams(streams: seq<Stream>) returns (r: Option<Reject>)
    ensures r == if streams == [] then Some(NoVideoStream) else if !Plausible(streams) then Some(Implausible) else None
  {
    if streams == [] {
      return Some(NoVideoStream);
    }
    var i := 0;
    while i < |streams|
      invariant 0 <= i <= |streams|
      invariant forall j :: 0 <= j < i ==> streams[j].width > 0 && streams[j].height > 0
    {
      if streams[i].width <= 0 || streams[i].height <= 0 {
        return Some(Implausible);
      }
      i := i + 1;
    }
    return None;
  }

  /** The guards of Convert. */
  method Guard(src: Source, limits: Limits) returns (r: Option<Reject>)
    ensures r == Refusal(src, limits)
  {
    r := CheckStreams(src.streams);
    if r.Some? {
      return;
    }
    if src.duration > limits.MaxDuration() {
      return Some(DurationExceeded);
    }
    var tallest := MaxHeight(src.streams);
    if tallest > limits.MaxHeight() {
      assert src.streams[0] in src.streams;
      assert exists s <- src.streams :: s.height == tallest;
      return Some(ResolutionExceeded);
    }
    return if src.free < limits.Needed(src.size) then Some(NoDiskSpace) else None;
  }

  /** The guard stage, and the planning of a transcode: refused by the first guard that refuses, or
      for a source that would have to be encoded and is too large; served otherwise. */
  method PlanTranscode(src: Source, limits: Limits, target: Target, o: Options) returns (plan: Plan, ghost primary: nat)
    requires Parsed(o) && Applicable(target, o)
    ensures Refusal(src, limits).Some? ==> plan == Rejected(Refusal(src, limits).value)
    ensures Refusal(src, limits).None? ==>
              && IsPrimary(src.streams, primary)
              && var s := src.streams[primary];
                 if Copyable(target, o, s, src.audio) || (s.height <= 1080 && s.width <= 1920)
                 then Serves(plan, s, src.audio, target, o)
                 else plan == Rejected(EncodeResolutionExceeded)
  {
    var refused := Guard(src, limits);
    if refused.Some? {
      return Rejected(refused.value), 0;
    }
    var best, found := PrimaryStream(src.streams);
    primary :| IsPrimary(src.streams, primary) && src.streams[primary] == best;
    plan := Decide(target, o, best, src.audio);
  }

  /** A copied file is one that a re-encode would not have had to change: the source already meets
      the contract and every option. */
  lemma CopyOnlyWhenNothingAsked(target: Target, o: Options, primary: Stream, audio: string)
    requires Parsed(o) && Applicable(target, o)
    ensures Decide(target, o, primary, audio).Copy? <==>
              var out := Output(primary.codec, audio, primary.height);
              audio != "" && InContract(target, o, out) && HonoursCodec(o, out) && o.height == 0 && o.codec != "hevc"
  {
  }

  /** On webm the h264 option is not without effect: it turns a copy of a large source into a
      refusal. */
  lemma IgnoredCodecStillRefuses(primary: Stream)
    requires primary.codec == "vp9" && (primary.height > 1080 || primary.width > 1920)
    ensures Decide(Webm, Options(None, 0, ""), primary, "opus") == Copy(primary.index)
    ensures Decide(Webm, Options(None, 0, "h264"), primary, "opus") == Rejected(EncodeResolutionExceeded)
  {
  }
}
