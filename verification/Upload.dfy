/** Screening of an upload in internal/api/handlers.go: peeking readers that share and drain one
    underlying stream, and what finally reaches storage. */
module Upload {
  import opened Wrappers
  import opened Bytes
  import opened Sniffing
  import Ebml
  import Cfb

  const SNIFF_LEN := 12
  const AV_PEEK_LEN := 4 * 1024
  const MP3_PEEK_LEN := 512 * 1024
  const DIM_PEEK_LEN := 64 * 1024

  // ----- readers -----

  /** A stream with bytes of its own, followed by whatever another stream still holds: the file
      itself, or a peeked prefix stitched back onto the reader it was taken from. */
  class Reader {
    var data: seq<byte>
    const next: Reader?
    ghost const Repr: set<Reader>

    ghost predicate Valid()
      decreases Repr
    {
      this in Repr && (next != null ==> next in Repr && next.Repr < Repr && this !in next.Repr && next.Valid())
    }

    /** What the stream still yields. */
    ghost function Remaining(): seq<byte>
      requires Valid()
      reads Repr
      decreases Repr
    {
      data + if next == null then [] else next.Remaining()
    }

    /** A prefix stitched onto a reader. */
    constructor (data: seq<byte>, next: Reader?)
      requires next != null ==> next.Valid()
      ensures Valid() && this.data == data && this.next == next
      ensures Repr == {this} + if next == null then {} else next.Repr
    {
      this.data := data;
      this.next := next;
      this.Repr := {this} + if next == null then {} else next.Repr;
    }

    /** Reads `n` bytes, or all there are. */
    method Drain(n: nat) returns (buf: seq<byte>)
      requires Valid()
      modifies Repr
      ensures buf == Take(old(Remaining()), n) && Remaining() == Drop(old(Remaining()), n)
      decreases Repr
    {
      if n <= |data| {
        buf := data[..n];
        data := data[n..];
      } else {
        buf := data;
        data := [];
        if next != null {
          TakeMore(buf, next.Remaining(), n);
          var more := next.Drain(n - |buf|);
          buf := buf + more;
        }
      }
    }
  }

  /** A read of `n` bytes hits a fault that strikes after `k`: unless the read is over, or the
      stream is, before. */
  predicate Hits(fault: Option<nat>, n: nat, s: seq<byte>) {
    fault.Some? && fault.value < n && fault.value <= |s|
  }

  /** Bytes a peek takes out of a stream without giving them back. */
  function Taken(fault: Option<nat>, n: nat, s: seq<byte>): nat {
    if Hits(fault, n, s) then fault.value else 0
  }

  /** The common shape of Sniff, SniffVideo, SniffAudio and Dimensions: read up to `n` bytes, and
      stitch them back. A read fault loses what was read. */
  method Peek(r: Reader, n: nat, fault: Option<nat>) returns (buf: seq<byte>, rest: Reader?)
    requires r.Valid()
    modifies r.Repr
    ensures rest == null <==> Hits(fault, n, old(r.Remaining()))
    ensures rest == null ==> r.Remaining() == Drop(old(r.Remaining()), fault.value)
    ensures rest != null ==> rest.Valid() && fresh(rest.Repr - r.Repr) && rest.Remaining() == old(r.Remaining())
    ensures rest != null ==> buf == Take(old(r.Remaining()), n)
  {
    ghost var all := r.Remaining();
    if fault.Some? && fault.value < n {
      buf := r.Drain(fault.value);
      if |buf| == fault.value {
        return buf, null;
      }
    } else {
      buf := r.Drain(n);
    }
    TakeDrop(all, n);
    rest := new Reader(buf, r);
  }

  // ----- screening as a function of the file -----

  /** What the ZIP inspection makes of a file that starts as an archive. */
  datatype Archive = NoDocument | Document(format: Format, uncompressed: nat, macro: bool)

  /** Code that screening calls and that is not part of the model, and the service's limits. */
  datatype Env = Env(
    archive: seq<byte> -> Archive,
    html: seq<byte> -> bool,
    engine: Format -> Option<nat>,
    engineLimit: nat -> Option<nat>,
    maxUncompressed: nat,
    maxPixels: nat)

  /** When each peek is struck by a read fault, if at all. */
  datatype Faults = Faults(sniff: Option<nat>, video: Option<nat>, audio: Option<nat>, dimensions: Option<nat>)

  datatype Reason =
    | ReadFailed | ZipBomb | Macro | OleDocument(kind: Cfb.Class) | Unrecognized | Mismatch | Unsupported
    | TooLarge | DimensionsUnknown | TooManyPixels

  datatype Verdict = Accepted(format: Format) | Rejected(reason: Reason)

  predicate StartsZip(b: seq<byte>) { Magic(b) == Some(0x504B0304) }
  predicate StartsOle(b: seq<byte>) { |b| >= 8 && Big(b, 0, 4) == 0xD0CF11E0 && Big(b, 4, 8) == 0xA1B11AE1 }

  /** Nothing before the video peek settles the file. */
  predicate Undecided(env: Env, all: seq<byte>, source: Option<Format>) {
    && Signature(Take(all, SNIFF_LEN)).None?
    && !(StartsZip(all) && env.archive(all).Document?)
    && !(source == Some(Html) && env.html(all))
    && !StartsOle(all)
  }

  /** Detection by the detectors that read the file at fixed offsets. */
  ghost function Early(env: Env, all: seq<byte>, size: nat, source: Option<Format>): Verdict
    requires !Undecided(env, all, source)
  {
    match Signature(Take(all, SNIFF_LEN))
    case Some(f) => Accepted(f)
    case None =>
      if StartsZip(all) && env.archive(all).Document? then
        var doc := env.archive(all);
        if doc.uncompressed > env.maxUncompressed then Rejected(ZipBomb)
        else if doc.macro then Rejected(Macro)
        else Accepted(doc.format)
      else if source == Some(Html) && env.html(all) then Accepted(Html)
      else Rejected(OleDocument(Cfb.ClassOf(all, size)))
  }

  /** Bytes that a fault in the video peek takes out of the stream. */
  function Lost(env: Env, all: seq<byte>, source: Option<Format>, faults: Faults): nat {
    if Undecided(env, all, source) then Taken(faults.video, AV_PEEK_LEN, all) else 0
  }

  function AudioVerdict(s: seq<byte>, fault: Option<nat>): Verdict {
    if Hits(fault, MP3_PEEK_LEN, s) || Audio(Take(s, MP3_PEEK_LEN)).None? then Rejected(Unrecognized)
    else Accepted(Audio(Take(s, MP3_PEEK_LEN)).value)
  }

  /** Detection by the detectors that peek. */
  ghost function Late(all: seq<byte>, faults: Faults): Verdict {
    if Hits(faults.video, AV_PEEK_LEN, all) then AudioVerdict(Drop(all, faults.video.value), faults.audio)
    else if Video(Take(all, AV_PEEK_LEN)).Some? then Accepted(Video(Take(all, AV_PEEK_LEN)).value)
    else AudioVerdict(all, faults.audio)
  }

  ghost function Detected(env: Env, all: seq<byte>, size: nat, source: Option<Format>, faults: Faults): Verdict {
    if Hits(faults.sniff, SNIFF_LEN, all) then Rejected(ReadFailed)
    else if Undecided(env, all, source) then Late(all, faults)
    else Early(env, all, size, source)
  }

  function Pixels(env: Env, s: seq<byte>, f: Format, fault: Option<nat>): Verdict {
    if Hits(fault, DIM_PEEK_LEN, s) then Rejected(DimensionsUnknown)
    else
      match Dimensions(f, Take(s, DIM_PEEK_LEN))
      case None => Rejected(DimensionsUnknown)
      case Some((w, h)) => if w * h > env.maxPixels then Rejected(TooManyPixels) else Accepted(f)
  }

  /** The checks on a detected format; `s` is the stream at that point. */
  function Checked(env: Env, s: seq<byte>, size: nat, source: Option<Format>, f: Format, fault: Option<nat>): Verdict {
    if source != Some(f) then Rejected(Mismatch)
    else if env.engine(f).None? then Rejected(Unsupported)
    else
      var limit := env.engineLimit(env.engine(f).value);
      if limit.Some? && size > limit.value then Rejected(TooLarge)
      else if HasDimensions(f) then Pixels(env, s, f, fault)
      else Accepted(f)
  }

  ghost function Screened(env: Env, all: seq<byte>, size: nat, source: Option<Format>, faults: Faults): Verdict {
    match Detected(env, all, size, source, faults)
    case Rejected(r) => Rejected(r)
    case Accepted(f) => Checked(env, Drop(all, Lost(env, all, source, faults)), size, source, f, faults.dimensions)
  }

  // ----- screening as the handler does it -----

  method SniffVideo(r: Reader, fault: Option<nat>) returns (f: Option<Format>, rest: Reader?)
    requires r.Valid()
    modifies r.Repr
    ensures rest == null <==> Hits(fault, 4096, old(r.Remaining()))
    ensures rest == null ==> f.None? && r.Remaining() == Drop(old(r.Remaining()), fault.value)
    ensures rest != null ==> rest.Valid() && fresh(rest.Repr - r.Repr) && rest.Remaining() == old(r.Remaining())
    ensures rest != null ==> f == Video(Take(old(r.Remaining()), 4096))
  {
    var buf;
    buf, rest := Peek(r, AV_PEEK_LEN, fault);
    if rest == null {
      return None, null;
    }
    var m := Ebml.MatchEbml(buf);
    f := VideoFormat(m);
  }

  method SniffAudio(r: Reader, fault: Option<nat>) returns (f: Option<Format>, rest: Reader?)
    requires r.Valid()
    modifies r.Repr
    ensures rest == null <==> Hits(fault, 524288, old(r.Remaining()))
    ensures rest == null ==> f.None?
    ensures rest != null ==> rest.Valid() && fresh(rest.Repr - r.Repr) && rest.Remaining() == old(r.Remaining())
    ensures rest != null ==> f == Audio(Take(old(r.Remaining()), 524288))
  {
    var buf;
    buf, rest := Peek(r, MP3_PEEK_LEN, fault);
    f := if rest == null then None else Audio(buf);
  }

  /** The two peeking detectors in a row. The video peek's reader is always taken over, the audio
      peek's only on a match. */
  method DetectLate(start: Reader, faults: Faults) returns (v: Verdict, rest: Reader)
    requires start.Valid()
    modifies start.Repr
    ensures v == Late(old(start.Remaining()), faults)
    ensures v.Accepted? ==> rest.Valid() && fresh(rest.Repr - start.Repr)
    ensures v.Accepted? ==> var all := old(start.Remaining());
                            rest.Remaining() == Drop(all, Taken(faults.video, AV_PEEK_LEN, all))
  {
    rest := start;
    var video, videoRest := SniffVideo(rest, faults.video);
    if videoRest != null {
      rest := videoRest;
      if video.Some? {
        return Accepted(video.value), rest;
      }
    }
    var audio, audioRest := SniffAudio(rest, faults.audio);
    if audioRest == null || audio.None? {
      return Rejected(Unrecognized), rest;
    }
    return Accepted(audio.value), audioRest;
  }

  method Detect(env: Env, file: Reader, all: seq<byte>, size: nat, source: Option<Format>, faults: Faults)
    returns (v: Verdict, rest: Reader)
    requires file.Valid() && file.Remaining() == all
    modifies file.Repr
    ensures v == Detected(env, all, size, source, faults)
    ensures v.Accepted? ==> rest.Valid() && fresh(rest.Repr - file.Repr)
    ensures v.Accepted? ==> rest.Remaining() == Drop(all, Lost(env, all, source, faults))
  {
    var buf, sniffed := Peek(file, SNIFF_LEN, faults.sniff);
    if sniffed == null {
      return Rejected(ReadFailed), file;
    }
    rest := sniffed;
    var signature := MatchSignature(buf);
    if signature.Some? {
      return Accepted(signature.value), rest;
    }
    if StartsZip(all) {
      var doc := env.archive(all);
      if doc.Document? {
        if doc.uncompressed > env.maxUncompressed {
          return Rejected(ZipBomb), rest;
        }
        if doc.macro {
          return Rejected(Macro), rest;
        }
        return Accepted(doc.format), rest;
      }
    }
    if source == Some(Html) && env.html(all) {
      return Accepted(Html), rest;
    }
    if StartsOle(all) {
      var kind := Cfb.Classify(all, size);
      return Rejected(OleDocument(kind)), rest;
    }
    v, rest := DetectLate(rest, faults);
  }

  method CheckPixels(env: Env, r: Reader, f: Format, fault: Option<nat>) returns (v: Verdict, rest: Reader)
    requires r.Valid()
    modifies r.Repr
    ensures v == Pixels(env, old(r.Remaining()), f, fault)
    ensures v.Accepted? ==> v.format == f && rest.Valid() && fresh(rest.Repr - r.Repr)
    ensures v.Accepted? ==> rest.Remaining() == old(r.Remaining())
  {
    var buf, dimRest := Peek(r, DIM_PEEK_LEN, fault);
    if dimRest == null {
      return Rejected(DimensionsUnknown), r;
    }
    var size := ReadDimensions(f, buf);
    if size.None? {
      return Rejected(DimensionsUnknown), r;
    }
    rest := dimRest;
    v := if size.value.0 * size.value.1 > env.maxPixels then Rejected(TooManyPixels) else Accepted(f);
  }

  /** handleCreateJob up to the call of Upload, on the path that reaches it. */
  method Screen(env: Env, file: Reader, all: seq<byte>, size: nat, source: Option<Format>, faults: Faults)
    returns (v: Verdict, rest: Reader)
    requires file.Valid() && file.Remaining() == all
    modifies file.Repr
    ensures v == Screened(env, all, size, source, faults)
    ensures v.Accepted? ==> rest.Valid() && rest.Remaining() == Drop(all, Lost(env, all, source, faults))
    ensures v.Accepted? ==> (rest.Remaining() == all <==> Lost(env, all, source, faults) == 0)
    ensures v.Accepted? ==> |rest.Remaining()| == |all| - Lost(env, all, source, faults)
  {
    v, rest := Detect(env, file, all, size, source, faults);
    if v.Rejected? {
      return;
    }
    var f := v.format;
    if source != Some(f) {
      return Rejected(Mismatch), rest;
    }
    var engine := env.engine(f);
    if engine.None? {
      return Rejected(Unsupported), rest;
    }
    var limit := env.engineLimit(engine.value);
    if limit.Some? && size > limit.value {
      return Rejected(TooLarge), rest;
    }
    if HasDimensions(f) {
      v, rest := CheckPixels(env, rest, f, faults.dimensions);
    }
  }

  // ----- what acceptance means -----

  lemma LateRecognised(all: seq<byte>, faults: Faults)
    requires Taken(faults.video, AV_PEEK_LEN, all) == 0 && Late(all, faults).Accepted?
    ensures Recognised(Late(all, faults).format, all)
  {
    if !Hits(faults.video, AV_PEEK_LEN, all) && Video(Take(all, AV_PEEK_LEN)).Some? {
      VideoRecognised(all, AV_PEEK_LEN);
    } else {
      assert Drop(all, 0) == all;
      AudioRecognised(all, MP3_PEEK_LEN);
    }
  }

  /** Formats that the inspections outside this model decide. */
  predicate Inspected(f: Format) { f in {Html, Docx, Xlsx, Pptx, Odt, Ods, Odp} }

  /** An intact accepted upload is what its extension claims, by its own detector on the whole file and
      not only on the peeked prefix. */
  lemma AcceptedIsRecognised(env: Env, all: seq<byte>, size: nat, source: Option<Format>, faults: Faults)
    requires Lost(env, all, source, faults) == 0 && Screened(env, all, size, source, faults).Accepted?
    requires forall b :: env.archive(b).Document? ==> Inspected(env.archive(b).format)
    ensures var f := Screened(env, all, size, source, faults).format;
            source == Some(f) && (Inspected(f) || Recognised(f, all))
  {
    if Undecided(env, all, source) {
      LateRecognised(all, faults);
    } else {
      FirstSignedByPrefix(TABLE, all, SNIFF_LEN);
    }
  }

  /** An intact accepted image declares, on the whole file, no more pixels than the limit. */
  lemma AcceptedWithinPixels(env: Env, all: seq<byte>, size: nat, source: Option<Format>, faults: Faults)
    requires Lost(env, all, source, faults) == 0
    ensures var v := Screened(env, all, size, source, faults);
            v.Accepted? && HasDimensions(v.format) ==>
              && Dimensions(v.format, all).Some?
              && Dimensions(v.format, all).value.0 * Dimensions(v.format, all).value.1 <= env.maxPixels
  {
    var v := Screened(env, all, size, source, faults);
    if v.Accepted? && HasDimensions(v.format) {
      DimensionsOfWhole(v.format, all, DIM_PEEK_LEN);
    }
  }

  // ----- what is refused -----

  /** The file starts as an archive that inspection takes for a document, and no signature claims it. */
  ghost predicate IsDocument(env: Env, all: seq<byte>, faults: Faults) {
    && !Hits(faults.sniff, 12, all) && (forall f: Format :: f in TABLE ==> !StartsAs(f, Take(all, 12)))
    && Sits(all, 0, [0x50, 0x4B, 0x03, 0x04]) && env.archive(all).Document?
  }

  lemma DocumentDetected(env: Env, all: seq<byte>, size: nat, source: Option<Format>, faults: Faults)
    requires IsDocument(env, all, faults)
    ensures var doc := env.archive(all);
            Detected(env, all, size, source, faults) ==
            if doc.uncompressed > env.maxUncompressed then Rejected(ZipBomb)
            else if doc.macro then Rejected(Macro)
            else Accepted(doc.format)
  {
    forall f: Format | f in TABLE ensures !Signed(f, Take(all, 12)) { SignedIff(f, Take(all, 12)); }
    NoneSigned(TABLE, Take(all, 12));
    CodeSits(all, 0, 0x50, 0x4B, 0x03, 0x04);
  }

  /** An archive that unpacks to too much is refused, and so is a document with macros; only others
      are accepted, and as what they are. */
  lemma DocumentsScreened(env: Env, all: seq<byte>, size: nat, source: Option<Format>, faults: Faults)
    requires IsDocument(env, all, faults)
    ensures var doc, v := env.archive(all), Screened(env, all, size, source, faults);
            && (doc.uncompressed > env.maxUncompressed ==> v == Rejected(ZipBomb))
            && (doc.uncompressed <= env.maxUncompressed && doc.macro ==> v == Rejected(Macro))
            && (v.Accepted? ==> v.format == doc.format && !doc.macro && doc.uncompressed <= env.maxUncompressed)
  {
    DocumentDetected(env, all, size, source, faults);
  }

  /** A detected upload is refused for a false extension, then for want of an engine, then for its
      size, and an image for its pixels; and accepted exactly when none of these applies. */
  lemma DetectedScreened(env: Env, all: seq<byte>, size: nat, source: Option<Format>, faults: Faults, f: Format)
    requires Detected(env, all, size, source, faults) == Accepted(f)
    ensures var v := Screened(env, all, size, source, faults);
            var stream := Drop(all, Lost(env, all, source, faults));
            var engine := env.engine(f);
            if source != Some(f) then v == Rejected(Mismatch)
            else if engine.None? then v == Rejected(Unsupported)
            else if env.engineLimit(engine.value).Some? && size > env.engineLimit(engine.value).value
            then v == Rejected(TooLarge)
            else if f !in {Png, Jpg, Webp, Heic, Tiff} then v == Accepted(f)
            else if Hits(faults.dimensions, 65536, stream) || Dimensions(f, Take(stream, 65536)).None?
            then v == Rejected(DimensionsUnknown)
            else
              var (w, h) := Dimensions(f, Take(stream, 65536)).value;
              v == if w * h > env.maxPixels then Rejected(TooManyPixels) else Accepted(f)
  {
  }

  /** An OLE compound file is refused whatever it claims to be, by what it is. */
  lemma OleRefused(env: Env, all: seq<byte>, size: nat, source: Option<Format>, faults: Faults)
    requires Sits(all, 0, [0xD0, 0xCF, 0x11, 0xE0]) && Sits(all, 4, [0xA1, 0xB1, 0x1A, 0xE1])
    requires !Hits(faults.sniff, 12, all) && !(source == Some(Html) && env.html(all))
    ensures Screened(env, all, size, source, faults) == Rejected(OleDocument(Cfb.ClassOf(all, size)))
  {
    CodeSits(all, 0, 0xD0, 0xCF, 0x11, 0xE0);
    CodeSits(all, 4, 0xA1, 0xB1, 0x1A, 0xE1);
    OleUnsigned(all);
  }

  lemma OleUnsigned(all: seq<byte>)
    requires |all| >= 8 && Big(all, 0, 4) == 0xD0CF11E0 && Big(all, 4, 8) == 0xA1B11AE1
    ensures Signature(Take(all, 12)).None?
  {
    CodeIs(all, 0);
    forall f: Format | f in TABLE ensures !Signed(f, Take(all, 12)) { SignedByPrefix(f, all, 12); }
    NoneSigned(TABLE, Take(all, 12));
  }

  /** Seven bytes that no detector recognises, whose last two start like an MP3 frame. */
  const SHORT_FILE: seq<byte> := [0, 0, 0, 0, 0, 0xFF, 0xFB]

  const NO_FAULTS := Faults(None, None, None, None)
  const VIDEO_FAULT := Faults(None, Some(5), None, None)

  lemma {:induction false} NoneSigned(table: seq<Format>, b: seq<byte>)
    requires forall f <- table :: !Signed(f, b)
    ensures FirstSigned(table, b).None?
    decreases |table|
  {
    if table != [] { NoneSigned(table[1..], b); }
  }

  lemma ShortUnsigned(all: seq<byte>)
    requires |all| == 7 && all[0] == all[1] == all[2] == all[3] == 0
    ensures Signature(all).None? && Audio(all).None? && !StartsZip(all) && !StartsOle(all)
  {
    CodeIs(all, 0);
    forall f | f in TABLE ensures !Signed(f, all) {}
    NoneSigned(TABLE, all);
  }

  lemma ShortIsNoVideo(all: seq<byte>)
    requires |all| == 7 && all[0] == 0
    ensures Video(all).None?
  {
  }

  lemma ShortUndecided(env: Env)
    ensures Undecided(env, SHORT_FILE, Some(Mp3))
  {
    ShortUnsigned(SHORT_FILE);
  }

  lemma RestIsAudio()
    ensures AudioVerdict(Drop(SHORT_FILE, 5), None) == Accepted(Mp3)
  {
    assert Drop(SHORT_FILE, 5) == [0xFF, 0xFB];
  }

  lemma ShortUnrecognized(env: Env)
    ensures Screened(env, SHORT_FILE, 7, Some(Mp3), NO_FAULTS) == Rejected(Unrecognized)
  {
    ShortUnsigned(SHORT_FILE);
    ShortIsNoVideo(SHORT_FILE);
    ShortUndecided(env);
  }

  lemma FaultedIsAudio(env: Env)
    ensures Lost(env, SHORT_FILE, Some(Mp3), VIDEO_FAULT) == 5
    ensures Detected(env, SHORT_FILE, 7, Some(Mp3), VIDEO_FAULT) == Accepted(Mp3)
  {
    ShortUndecided(env);
    RestIsAudio();
  }

  /** A fault that strikes the video peek alone, once, gets a shortened stream through screening:
      five bytes are lost, what is left starts like an MP3 frame, and it is accepted as one, though
      the whole file is recognised as nothing. */
  lemma VideoFaultShortens(env: Env)
    requires env.engine(Mp3).Some? && env.engineLimit(env.engine(Mp3).value).None?
    ensures Lost(env, SHORT_FILE, Some(Mp3), VIDEO_FAULT) == 5
    ensures Screened(env, SHORT_FILE, 7, Some(Mp3), VIDEO_FAULT) == Accepted(Mp3)
    ensures Screened(env, SHORT_FILE, 7, Some(Mp3), NO_FAULTS) == Rejected(Unrecognized)
  {
    FaultedIsAudio(env);
    ShortUnrecognized(env);
  }
}
