/** Format detection by magic bytes: internal/convert/sniff.go, audiosniff.go, avsniff.go. */
module Sniffing {
  import opened Wrappers
  import opened Bytes
  import Ebml
  import Jpeg
  import Png
  import Webp
  import Tiff
  import Isobmff

  datatype Format =
    | Png | Jpg | Webp | Heic | Tiff
    | Mp4 | Mov | Avi | Mkv | Webm
    | Wav | Ogg | M4a | Mp3
    | Docx | Xlsx | Pptx | Odt | Ods | Odp
    | Html

  // four-character codes, as big-endian values
  const FTYP := 0x66747970
  const RIFF := 0x52494646
  const QT := 0x71742020
  const OGGS := 0x4F676753

  /** heic, heix, hevc, hevx, mif1, msf1. */
  const HEIC_BRANDS: set<nat> := {0x68656963, 0x68656978, 0x68657663, 0x68657678, 0x6D696631, 0x6D736631}
  /** isom, mp41, mp42, mp4v, avc1, iso2 to iso9, 3gp4, 3gp5, 3g2a, dash. */
  const MP4_BRANDS: set<nat> := {
    0x69736F6D, 0x6D703431, 0x6D703432, 0x6D703476, 0x61766331,
    0x69736F32, 0x69736F33, 0x69736F34, 0x69736F35, 0x69736F36, 0x69736F37, 0x69736F38, 0x69736F39,
    0x33677034, 0x33677035, 0x33673261, 0x64617368 }
  /** "M4A " and "M4B ". */
  const M4A_BRANDS: set<nat> := {0x4D344120, 0x4D344220}

  /** The major brand of a file that starts with an ftyp box. */
  function Brand(b: seq<byte>): Option<nat> {
    if |b| < 12 || Big(b, 4, 8) != FTYP then None else Some(Big(b, 8, 12))
  }

  /** The form type of a RIFF file. */
  function Form(b: seq<byte>): Option<nat> {
    if |b| < 12 || Big(b, 0, 4) != RIFF then None else Some(Big(b, 8, 12))
  }

  /** The first four bytes, as a number. */
  function Magic(b: seq<byte>): Option<nat> { if |b| < 4 then None else Some(Big(b, 0, 4)) }

  /** The fixed-window signatures, each on its own. */
  predicate Signed(f: Format, b: seq<byte>) {
    match f
    case Png => |b| >= 8 && Big(b, 0, 4) == 0x89504E47 && Big(b, 4, 8) == 0x0D0A1A0A
    case Jpg => |b| >= 3 && b[0] == 0xFF && b[1] == 0xD8 && b[2] == 0xFF
    case Webp => Form(b) == Some(0x57454250)
    case Heic => Brand(b).Some? && Brand(b).value in HEIC_BRANDS
    case Tiff => Magic(b) == Some(0x49492A00) || Magic(b) == Some(0x4D4D002A)
    case Mp4 => Brand(b).Some? && Brand(b).value in MP4_BRANDS
    case Mov => Brand(b) == Some(QT)
    case Avi => Form(b) == Some(0x41564920)
    case Wav => Form(b) == Some(0x57415645)
    case Ogg => Magic(b) == Some(OGGS)
    case M4a => Brand(b).Some? && Brand(b).value in M4A_BRANDS
    case _ => false
  }

  /** The order of the signature table. */
  const TABLE: seq<Format> := [Png, Jpg, Webp, Heic, Tiff, Mp4, Mov, Avi]

  function FirstSigned(table: seq<Format>, b: seq<byte>): Option<Format> {
    if table == [] then None
    else if Signed(table[0], b) then Some(table[0])
    else FirstSigned(table[1..], b)
  }

  function Signature(b: seq<byte>): Option<Format> { FirstSigned(TABLE, b) }

  /** The loop of Sniff over its table. */
  method MatchSignature(b: seq<byte>) returns (f: Option<Format>)
    ensures f == Signature(b)
  {
    var i := 0;
    while i < |TABLE|
      invariant 0 <= i <= |TABLE|
      invariant Signature(b) == FirstSigned(TABLE[i..], b)
    {
      if Signed(TABLE[i], b) {
        return Some(TABLE[i]);
      }
      i := i + 1;
    }
    return None;
  }

  // ----- the signatures, byte by byte -----

  predicate Ftyp(b: seq<byte>) { Sits(b, 4, [0x66, 0x74, 0x79, 0x70]) }  // "ftyp"
  predicate Riff(b: seq<byte>) { Sits(b, 0, [0x52, 0x49, 0x46, 0x46]) }  // "RIFF"

  /** Brands that differ in their last characters. */
  predicate HeicBrand(b: seq<byte>) {
    || Sits(b, 8, [0x68, 0x65, 0x69, 0x63]) || Sits(b, 8, [0x68, 0x65, 0x69, 0x78])  // "heic", "heix"
    || Sits(b, 8, [0x68, 0x65, 0x76, 0x63]) || Sits(b, 8, [0x68, 0x65, 0x76, 0x78])  // "hevc", "hevx"
    || Sits(b, 8, [0x6D, 0x69, 0x66, 0x31]) || Sits(b, 8, [0x6D, 0x73, 0x66, 0x31])  // "mif1", "msf1"
  }
  predicate IsoBrand(b: seq<byte>) {
    || Sits(b, 8, [0x69, 0x73, 0x6F, 0x6D])  // "isom"
    || Sits(b, 8, [0x69, 0x73, 0x6F, 0x32]) || Sits(b, 8, [0x69, 0x73, 0x6F, 0x33])  // "iso2" to "iso9"
    || Sits(b, 8, [0x69, 0x73, 0x6F, 0x34]) || Sits(b, 8, [0x69, 0x73, 0x6F, 0x35])
    || Sits(b, 8, [0x69, 0x73, 0x6F, 0x36]) || Sits(b, 8, [0x69, 0x73, 0x6F, 0x37])
    || Sits(b, 8, [0x69, 0x73, 0x6F, 0x38]) || Sits(b, 8, [0x69, 0x73, 0x6F, 0x39])
  }
  predicate OtherMp4Brand(b: seq<byte>) {
    || Sits(b, 8, [0x6D, 0x70, 0x34, 0x31]) || Sits(b, 8, [0x6D, 0x70, 0x34, 0x32])  // "mp41", "mp42"
    || Sits(b, 8, [0x6D, 0x70, 0x34, 0x76]) || Sits(b, 8, [0x61, 0x76, 0x63, 0x31])  // "mp4v", "avc1"
    || Sits(b, 8, [0x33, 0x67, 0x70, 0x34]) || Sits(b, 8, [0x33, 0x67, 0x70, 0x35])  // "3gp4", "3gp5"
    || Sits(b, 8, [0x33, 0x67, 0x32, 0x61]) || Sits(b, 8, [0x64, 0x61, 0x73, 0x68])  // "3g2a", "dash"
  }
  predicate M4aBrand(b: seq<byte>) {
    Sits(b, 8, [0x4D, 0x34, 0x41, 0x20]) || Sits(b, 8, [0x4D, 0x34, 0x42, 0x20])  // "M4A ", "M4B "
  }

  /** What a file of each format starts with. */
  predicate StartsAs(f: Format, b: seq<byte>) {
    match f
    case Png => Sits(b, 0, [0x89, 0x50, 0x4E, 0x47]) && Sits(b, 4, [0x0D, 0x0A, 0x1A, 0x0A])
    case Jpg => Sits(b, 0, [0xFF, 0xD8, 0xFF])
    case Webp => Riff(b) && Sits(b, 8, [0x57, 0x45, 0x42, 0x50])
    case Heic => Ftyp(b) && HeicBrand(b)
    case Tiff => Sits(b, 0, [0x49, 0x49, 0x2A, 0x00]) || Sits(b, 0, [0x4D, 0x4D, 0x00, 0x2A])
    case Mp4 => Ftyp(b) && (IsoBrand(b) || OtherMp4Brand(b))
    case Mov => Ftyp(b) && Sits(b, 8, [0x71, 0x74, 0x20, 0x20])
    case Avi => Riff(b) && Sits(b, 8, [0x41, 0x56, 0x49, 0x20])
    case Wav => Riff(b) && Sits(b, 8, [0x57, 0x41, 0x56, 0x45])
    case Ogg => Sits(b, 0, [0x4F, 0x67, 0x67, 0x53])
    case M4a => Ftyp(b) && M4aBrand(b)
    case _ => false
  }

  lemma HeicBrands(b: seq<byte>)
    requires |b| >= 12
    ensures HeicBrand(b) <==> Big(b, 8, 12) in HEIC_BRANDS
  {
    CodeSits(b, 8, 0x68, 0x65, 0x69, 0x63);
    CodeSits(b, 8, 0x68, 0x65, 0x69, 0x78);
    CodeSits(b, 8, 0x68, 0x65, 0x76, 0x63);
    CodeSits(b, 8, 0x68, 0x65, 0x76, 0x78);
    CodeSits(b, 8, 0x6D, 0x69, 0x66, 0x31);
    CodeSits(b, 8, 0x6D, 0x73, 0x66, 0x31);
  }

  lemma IsoBrands(b: seq<byte>)
    requires |b| >= 12
    ensures IsoBrand(b) <==> Big(b, 8, 12) == 0x69736F6D || 0x69736F32 <= Big(b, 8, 12) <= 0x69736F39
  {
    CodeSits(b, 8, 0x69, 0x73, 0x6F, 0x6D);
    CodeSits(b, 8, 0x69, 0x73, 0x6F, 0x32);
    CodeSits(b, 8, 0x69, 0x73, 0x6F, 0x33);
    CodeSits(b, 8, 0x69, 0x73, 0x6F, 0x34);
    CodeSits(b, 8, 0x69, 0x73, 0x6F, 0x35);
    CodeSits(b, 8, 0x69, 0x73, 0x6F, 0x36);
    CodeSits(b, 8, 0x69, 0x73, 0x6F, 0x37);
    CodeSits(b, 8, 0x69, 0x73, 0x6F, 0x38);
    CodeSits(b, 8, 0x69, 0x73, 0x6F, 0x39);
  }

  lemma OtherMp4Brands(b: seq<byte>)
    requires |b| >= 12
    ensures OtherMp4Brand(b) <==>
              Big(b, 8, 12) in {0x6D703431, 0x6D703432, 0x6D703476, 0x61766331, 0x33677034, 0x33677035, 0x33673261,
                  0x64617368}
  {
    CodeSits(b, 8, 0x6D, 0x70, 0x34, 0x31);
    CodeSits(b, 8, 0x6D, 0x70, 0x34, 0x32);
    CodeSits(b, 8, 0x6D, 0x70, 0x34, 0x76);
    CodeSits(b, 8, 0x61, 0x76, 0x63, 0x31);
    CodeSits(b, 8, 0x33, 0x67, 0x70, 0x34);
    CodeSits(b, 8, 0x33, 0x67, 0x70, 0x35);
    CodeSits(b, 8, 0x33, 0x67, 0x32, 0x61);
    CodeSits(b, 8, 0x64, 0x61, 0x73, 0x68);
  }

  /** The ftyp formats, from their bytes. */
  lemma BrandedIff(f: Format, b: seq<byte>)
    requires f == Heic || f == Mp4 || f == Mov || f == M4a
    ensures Signed(f, b) <==> StartsAs(f, b)
  {
    if |b| >= 12 {
      CodeSits(b, 4, 0x66, 0x74, 0x79, 0x70);
      match f
      case Heic => HeicBrands(b);
      case Mp4 => Mp4Brands(b);
      case Mov => CodeSits(b, 8, 0x71, 0x74, 0x20, 0x20);
      case M4a => M4aBrands(b);
    }
  }

  lemma Mp4Brands(b: seq<byte>)
    requires |b| >= 12
    ensures IsoBrand(b) || OtherMp4Brand(b) <==> Big(b, 8, 12) in MP4_BRANDS
  {
    IsoBrands(b);
    OtherMp4Brands(b);
  }

  lemma M4aBrands(b: seq<byte>)
    requires |b| >= 12
    ensures M4aBrand(b) <==> Big(b, 8, 12) in M4A_BRANDS
  {
    CodeSits(b, 8, 0x4D, 0x34, 0x41, 0x20);
    CodeSits(b, 8, 0x4D, 0x34, 0x42, 0x20);
  }

  /** The RIFF formats, from their bytes. */
  lemma FormedIff(f: Format, b: seq<byte>)
    requires f == Webp || f == Avi || f == Wav
    ensures Signed(f, b) <==> StartsAs(f, b)
  {
    if |b| >= 12 {
      CodeSits(b, 0, 0x52, 0x49, 0x46, 0x46);
      CodeSits(b, 8, 0x57, 0x45, 0x42, 0x50);
      CodeSits(b, 8, 0x41, 0x56, 0x49, 0x20);
      CodeSits(b, 8, 0x57, 0x41, 0x56, 0x45);
    }
  }

  lemma LeadingIff(f: Format, b: seq<byte>)
    requires f == Png || f == Jpg || f == Tiff || f == Ogg
    ensures Signed(f, b) <==> StartsAs(f, b)
  {
    match f
    case Png =>
      CodeSits(b, 0, 0x89, 0x50, 0x4E, 0x47);
      CodeSits(b, 4, 0x0D, 0x0A, 0x1A, 0x0A);
    case Jpg => JpgStart(b);
    case Tiff =>
      CodeSits(b, 0, 0x49, 0x49, 0x2A, 0x00);
      CodeSits(b, 0, 0x4D, 0x4D, 0x00, 0x2A);
    case Ogg => CodeSits(b, 0, 0x4F, 0x67, 0x67, 0x53);
  }

  lemma JpgStart(b: seq<byte>)
    ensures Signed(Jpg, b) <==> Sits(b, 0, [0xFF, 0xD8, 0xFF])
  {
    var start: seq<byte> := [0xFF, 0xD8, 0xFF];
    if Sits(b, 0, start) { assert b[0 + 0] == start[0] && b[0 + 1] == start[1] && b[0 + 2] == start[2]; }
  }

  /** Every signature is the bytes its format is known by, and nothing else. */
  lemma SignedIff(f: Format, b: seq<byte>)
    ensures Signed(f, b) <==> StartsAs(f, b)
  {
    match f
    case Heic => BrandedIff(f, b);
    case Mp4 => BrandedIff(f, b);
    case Mov => BrandedIff(f, b);
    case M4a => BrandedIff(f, b);
    case Webp => FormedIff(f, b);
    case Avi => FormedIff(f, b);
    case Wav => FormedIff(f, b);
    case Png => LeadingIff(f, b);
    case Jpg => LeadingIff(f, b);
    case Tiff => LeadingIff(f, b);
    case Ogg => LeadingIff(f, b);
    case _ =>
  }

  // ----- MP3 -----

  /** Bitwise or of four bytes shifted by 21, 14, 7 and 0: neighbours share one bit. */
  function TagSize(w: byte, x: byte, y: byte, z: byte): (n: nat)
    ensures w < 128 && x < 128 && y < 128 && z < 128 ==> n == 0x20_0000 * w + 0x4000 * x + 0x80 * y + z
  {
    var wx := if w % 2 == 1 && x >= 128 then 0x20_0000 else 0;
    var xy := if x % 2 == 1 && y >= 128 then 0x4000 else 0;
    var yz := if y % 2 == 1 && z >= 128 then 0x80 else 0;
    (0x20_0000 * w + 0x4000 * x + 0x80 * y + z) - wx - xy - yz
  }

  predicate Tagged(b: seq<byte>) { |b| >= 3 && b[0] == 0x49 && b[1] == 0x44 && b[2] == 0x33 }

  /** Where the ID3v2 tag at the start ends; the footer flag adds 10 bytes. */
  function TagEnd(b: seq<byte>): nat
    requires |b| >= 10
  {
    10 + TagSize(b[6], b[7], b[8], b[9]) + if (b[5] / 16) % 2 == 1 then 10 else 0
  }

  predicate Synced(b: seq<byte>, i: nat) { i + 1 < |b| && b[i] == 0xFF && b[i + 1] >= 0xE0 }

  /** matchMP3. */
  predicate IsMp3(b: seq<byte>) {
    if Tagged(b) then |b| >= 10 && Synced(b, TagEnd(b)) else Synced(b, 0)
  }

  /** A tag written with any synchsafe size, with or without a footer, is stepped over. */
  lemma TaggedMp3Reads(b: seq<byte>, w: byte, x: byte, y: byte, z: byte, footer: bool)
    requires w < 128 && x < 128 && y < 128 && z < 128 && |b| >= 10 && Tagged(b)
    requires b[6] == w && b[7] == x && b[8] == y && b[9] == z && ((b[5] / 16) % 2 == 1 <==> footer)
    ensures var end := 10 + (0x20_0000 * w + 0x4000 * x + 0x80 * y + z) + (if footer then 10 else 0);
            IsMp3(b) <==> end + 1 < |b| && b[end] == 0xFF && b[end + 1] >= 0xE0
  {
  }

  /** The switch of SniffAudio. */
  function Audio(b: seq<byte>): Option<Format> {
    if Signed(Wav, b) then Some(Wav)
    else if Signed(Ogg, b) then Some(Ogg)
    else if Signed(M4a, b) then Some(M4a)
    else if IsMp3(b) then Some(Mp3)
    else None
  }

  function VideoFormat(f: Option<Ebml.Format>): Option<Format> {
    match f case None => None case Some(Mkv) => Some(Mkv) case Some(Webm) => Some(Webm)
  }

  /** SniffVideo's answer for a prefix. */
  ghost function Video(b: seq<byte>): Option<Format> { VideoFormat(Ebml.Match(b)) }

  // ----- one file, one format -----

  predicate Branded(f: Format) { f == Heic || f == Mp4 || f == Mov || f == M4a }
  predicate Formed(f: Format) { f == Webp || f == Avi || f == Wav }

  /** The brand tables are disjoint, and so are the form types. */
  lemma BrandsDisjoint(b: seq<byte>, f: Format, g: Format)
    requires Signed(f, b) && Signed(g, b) && ((Branded(f) && Branded(g)) || (Formed(f) && Formed(g)))
    ensures f == g
  {
    if Brand(b).Some? { BrandTablesDisjoint(Brand(b).value); }
  }

  lemma BrandTablesDisjoint(v: nat)
    ensures v in HEIC_BRANDS ==> v !in MP4_BRANDS && v !in M4A_BRANDS && v != QT
    ensures v in MP4_BRANDS ==> v !in M4A_BRANDS && v != QT
    ensures v in M4A_BRANDS ==> v != QT
  {
  }

  /** Signatures that look at the first bytes only, where a branded file may hold anything. */
  predicate Leading(f: Format) { f == Jpg || f == Tiff || f == Ogg }

  /** Two different signatures match the same file only if one of them is an ftyp brand and the
      other a magic number that ends before the ftyp box type. */
  lemma AmbiguousOnlyByBrand(b: seq<byte>, f: Format, g: Format)
    requires Signed(f, b) && Signed(g, b) && f != g
    ensures (Branded(f) && Leading(g)) || (Leading(f) && Branded(g))
  {
    if |b| >= 4 {
      CodeIs(b, 0);
    }
    if (Branded(f) && Branded(g)) || (Formed(f) && Formed(g)) {
      BrandsDisjoint(b, f, g);
    }
  }

  /** A JPEG start with an HEIC brand after it: the table's order decides. */
  lemma JpegThenBrand()
    ensures var b: seq<byte> := [0xFF, 0xD8, 0xFF, 0xE0, 0x66, 0x74, 0x79, 0x70, 0x68, 0x65, 0x69, 0x63];
            Signed(Jpg, b) && Signed(Heic, b) && Signature(b) == Some(Jpg)
  {
    var b: seq<byte> := [0xFF, 0xD8, 0xFF, 0xE0, 0x66, 0x74, 0x79, 0x70, 0x68, 0x65, 0x69, 0x63];
    assert Fold(0, b, 0, 1) == 0xFF;
    assert Fold(0, b, 0, 3) == 0xFFD8FF;
    assert Fold(0, b, 4, 6) == 0x6674;
    assert Fold(0, b, 8, 10) == 0x6865;
    assert Fold(0, b, 4, 8) == FTYP && Fold(0, b, 8, 12) == 0x68656963;
  }

  // ----- prefixes -----

  function Take(b: seq<byte>, n: nat): (p: seq<byte>) { if n < |b| then b[..n] else b }
  function Drop(b: seq<byte>, n: nat): (p: seq<byte>) { if n < |b| then b[n..] else [] }

  lemma TakeDrop(b: seq<byte>, n: nat)
    ensures Take(b, n) + Drop(b, n) == b
  {
  }

  lemma TakeMore(a: seq<byte>, b: seq<byte>, n: nat)
    requires |a| <= n
    ensures Take(a + b, n) == a + Take(b, n - |a|) && Drop(a + b, n) == Drop(b, n - |a|)
  {
  }

  /** Twelve bytes decide every fixed-window signature. */
  lemma SignedByPrefix(f: Format, b: seq<byte>, n: nat)
    requires n >= 12
    ensures Signed(f, Take(b, n)) == Signed(f, b)
  {
    var p := Take(b, n);
    if n < |b| {
      assert b == p + b[n..];
      FoldPrefix(0, p, b[n..], 0, 4);
      FoldPrefix(0, p, b[n..], 4, 8);
      FoldPrefix(0, p, b[n..], 8, 12);
    }
  }

  lemma {:induction false} FirstSignedByPrefix(table: seq<Format>, b: seq<byte>, n: nat)
    requires n >= 12
    ensures FirstSigned(table, Take(b, n)) == FirstSigned(table, b)
    ensures FirstSigned(table, b).Some? ==> Signed(FirstSigned(table, b).value, b)
    decreases |table|
  {
    if table != [] {
      SignedByPrefix(table[0], b, n);
      FirstSignedByPrefix(table[1..], b, n);
    }
  }

  lemma Mp3Stable(b: seq<byte>, more: seq<byte>)
    requires IsMp3(b)
    ensures IsMp3(b + more)
  {
  }

  /** A file is recognised as a format by that format's own detector on all its bytes. */
  ghost predicate Recognised(f: Format, b: seq<byte>) {
    match f
    case Mkv => Video(b) == Some(Mkv)
    case Webm => Video(b) == Some(Webm)
    case Mp3 => IsMp3(b)
    case _ => Signed(f, b)
  }

  /** SniffVideo says mkv exactly for headers of DocType "matroska", and webm exactly for "webm". */
  lemma VideoIsNamed(b: seq<byte>)
    ensures Video(b) == Some(Mkv) <==>
              exists h: Ebml.Header :: Ebml.IsHeader(b, h, [0x6D, 0x61, 0x74, 0x72, 0x6F, 0x73, 0x6B, 0x61])
    ensures Video(b) == Some(Webm) <==> exists h: Ebml.Header :: Ebml.IsHeader(b, h, [0x77, 0x65, 0x62, 0x6D])
    ensures Video(b).Some? ==> Video(b).value == Mkv || Video(b).value == Webm
  {
    var matroska, webm := Ebml.DocTypeOf(Ebml.Mkv), Ebml.DocTypeOf(Ebml.Webm);
    assert matroska == [0x6D, 0x61, 0x74, 0x72, 0x6F, 0x73, 0x6B, 0x61] && webm == [0x77, 0x65, 0x62, 0x6D];
    VideoOfMatch(b);
    Ebml.RecognisedIffHeader(b, Ebml.Mkv);
    Ebml.RecognisedIffHeader(b, Ebml.Webm);
  }

  lemma VideoOfMatch(b: seq<byte>)
    ensures Video(b) == Some(Mkv) <==> Ebml.Match(b) == Some(Ebml.Mkv)
    ensures Video(b) == Some(Webm) <==> Ebml.Match(b) == Some(Ebml.Webm)
    ensures Video(b).Some? ==> Video(b).value == Mkv || Video(b).value == Webm
  {
  }

  lemma VideoRecognised(b: seq<byte>, n: nat)
    requires Video(Take(b, n)).Some?
    ensures Recognised(Video(Take(b, n)).value, b)
  {
    TakeDrop(b, n);
    Ebml.RecognitionStable(Take(b, n), Drop(b, n));
  }

  lemma AudioRecognised(b: seq<byte>, n: nat)
    requires n >= 12 && Audio(Take(b, n)).Some?
    ensures Recognised(Audio(Take(b, n)).value, b)
  {
    SignedByPrefix(Wav, b, n);
    SignedByPrefix(Ogg, b, n);
    SignedByPrefix(M4a, b, n);
    TakeDrop(b, n);
    if IsMp3(Take(b, n)) {
      Mp3Stable(Take(b, n), Drop(b, n));
    }
  }

  // ----- dimensions -----

  predicate HasDimensions(f: Format) { f == Png || f == Jpg || f == Webp || f == Heic || f == Tiff }

  /** The parser table of dimensions.go. */
  function Dimensions(f: Format, b: seq<byte>): Option<(nat, nat)> {
    match f
    case Png => Png.Dimensions(b)
    case Jpg => Jpeg.Dimensions(b)
    case Webp => Webp.Dimensions(b)
    case Heic => Isobmff.Dimensions(b)
    case Tiff => Tiff.Dimensions(b)
    case _ => None
  }

  method ReadDimensions(f: Format, b: seq<byte>) returns (r: Option<(nat, nat)>)
    requires |b| < 0x1_0000_0000
    ensures r == Dimensions(f, b)
  {
    match f
    case Png => r := Png.Dimensions(b);
    case Jpg => r := Jpeg.ReadDimensions(b);
    case Webp => r := Webp.Dimensions(b);
    case Heic => r := Isobmff.ReadDimensions(b);
    case Tiff => r := Tiff.ReadDimensions(b);
    case _ => r := None;
  }

  /** A positive answer on a bounded peek is the answer for the whole file. */
  lemma DimensionsOfWhole(f: Format, b: seq<byte>, n: nat)
    requires Dimensions(f, Take(b, n)).Some?
    ensures Dimensions(f, b) == Dimensions(f, Take(b, n))
  {
    TakeDrop(b, n);
    match f
    case Png => Png.DimensionsStable(Take(b, n), Drop(b, n));
    case Jpg => Jpeg.DimensionsStable(Take(b, n), Drop(b, n));
    case Webp => Webp.DimensionsStable(Take(b, n), Drop(b, n));
    case Heic => Isobmff.DimensionsStable(Take(b, n), Drop(b, n));
    case Tiff => Tiff.DimensionsStable(Take(b, n), Drop(b, n));
  }

  /** Width and height fit in 32 bits and their product in 64, so the pixel count never wraps. */
  lemma PixelsFit(f: Format, b: seq<byte>)
    requires Dimensions(f, b).Some?
    ensures var (w, h) := Dimensions(f, b).value;
            w < 0x1_0000_0000 && h < 0x1_0000_0000 && w * h < 0x1_0000_0000_0000_0000
  {
    match f {
      case Png => Png.DimensionsFit(b);
      case Jpg => Jpeg.DimensionsFit(b);
      case Webp => Webp.DimensionsFit(b);
      case Heic => Isobmff.DimensionsFit(b);
      case Tiff => Tiff.DimensionsFit(b);
    }
    MulBelow(Dimensions(f, b).value.0, Dimensions(f, b).value.1, 0x1_0000_0000);
  }
}
