/** Declared dimensions of PNG and WebP images (internal/convert/dimensions.go): fixed layouts. */
module Png {
  import opened Wrappers
  import opened Bytes

  const IHDR := 0x49484452

  /** pngDimensions: the fields of the IHDR chunk. */
  function Dimensions(b: seq<byte>): Option<(nat, nat)> {
    if |b| < 24 || Big(b, 12, 16) != IHDR then None else Some((Big(b, 16, 20), Big(b, 20, 24)))
  }

  /** Round trip, whatever the signature, the chunk length and what follows. */
  lemma FileReads(b: seq<byte>, width: nat, height: nat)
    requires width < Pow256(4) && height < Pow256(4)
    requires Sits(b, 12, [0x49, 0x48, 0x44, 0x52])
    requires Sits(b, 16, WriteBig(width, 4)) && Sits(b, 20, WriteBig(height, 4))
    ensures Dimensions(b) == Some((width, height))
  {
    assert Pow256(4) == 0x1_0000_0000;
    CodeSits(b, 12, 0x49, 0x48, 0x44, 0x52);
    BigSits(b, 16, width, 4);
    BigSits(b, 20, height, 4);
  }

  lemma DimensionsFit(b: seq<byte>)
    requires Dimensions(b).Some?
    ensures Dimensions(b).value.0 < 0x1_0000_0000 && Dimensions(b).value.1 < 0x1_0000_0000
  {
    SmallBelow(b, 16, 20);
    SmallBelow(b, 20, 24);
  }

  lemma DimensionsStable(b: seq<byte>, more: seq<byte>)
    requires Dimensions(b).Some?
    ensures Dimensions(b + more) == Dimensions(b)
  {
    FoldPrefix(0, b, more, 12, 16);
    FoldPrefix(0, b, more, 16, 20);
    FoldPrefix(0, b, more, 20, 24);
  }
}

/** The three WebP sub-formats: RFC 9649 and the WebP Lossless Bitstream Specification. */
module Webp {
  import opened Wrappers
  import opened Bytes

  const RIFF := 0x52494646
  const WEBP := 0x57454250
  const VP8X := 0x56503858
  const VP8_ := 0x56503820
  const VP8L := 0x5650384C

  function Extended(b: seq<byte>): Option<(nat, nat)> {
    if |b| < 30 then None else Some((Little(b, 24, 27) + 1, Little(b, 27, 30) + 1))
  }

  /** The upper two bits of each field are a scaling factor. */
  function Lossy(b: seq<byte>): Option<(nat, nat)> {
    if |b| < 30 || b[23] != 0x9D || b[24] != 0x01 || b[25] != 0x2A then None
    else Some((Little(b, 26, 28) % 0x4000, Little(b, 28, 30) % 0x4000))
  }

  /** Two 14-bit fields, packed from the least significant bit. */
  function Lossless(b: seq<byte>): Option<(nat, nat)> {
    if |b| < 25 || b[20] != 0x2F then None
    else
      var bits := Little(b, 21, 25);
      Some((bits % 0x4000 + 1, bits / 0x4000 % 0x4000 + 1))
  }

  /** webpDimensions. */
  function Dimensions(b: seq<byte>): Option<(nat, nat)> {
    if |b| < 20 || Big(b, 0, 4) != RIFF || Big(b, 8, 12) != WEBP then None
    else
      var fourCC := Big(b, 12, 16);
      if fourCC == VP8X then Extended(b)
      else if fourCC == VP8_ then Lossy(b)
      else if fourCC == VP8L then Lossless(b)
      else None
  }

  lemma DimensionsFit(b: seq<byte>)
    requires Dimensions(b).Some?
    ensures Dimensions(b).value.0 < 0x1_0000_0000 && Dimensions(b).value.1 < 0x1_0000_0000
  {
    if |b| >= 30 {
      SmallBelow(b, 24, 27);
      SmallBelow(b, 27, 30);
    }
  }

  lemma DimensionsStable(b: seq<byte>, more: seq<byte>)
    requires Dimensions(b).Some?
    ensures Dimensions(b + more) == Dimensions(b)
  {
    FoldPrefix(0, b, more, 0, 4);
    FoldPrefix(0, b, more, 8, 12);
    FoldPrefix(0, b, more, 12, 16);
    if |b| >= 30 {
      LittlePrefix(b, more, 24, 27);
      LittlePrefix(b, more, 27, 30);
      LittlePrefix(b, more, 26, 28);
      LittlePrefix(b, more, 28, 30);
    }
    if |b| >= 25 {
      LittlePrefix(b, more, 21, 25);
    }
  }

  // ----- reading what was written -----

  /** An image chunk: its type and the fields that carry a size. */
  datatype Image =
    | Canvas(flags: seq<byte>, width: nat, height: nat)
    | Key(tag: seq<byte>, width: nat, height: nat, scaleX: nat, scaleY: nat)
    | Packed(width: nat, height: nat, top: nat)
  {
    predicate Legal() {
      match this
      case Canvas(flags, w, h) => |flags| == 4 && 1 <= w <= 0x100_0000 && 1 <= h <= 0x100_0000
      case Key(tag, w, h, x, y) => |tag| == 3 && w < 0x4000 && h < 0x4000 && x < 4 && y < 4
      case Packed(w, h, top) => 1 <= w <= 0x4000 && 1 <= h <= 0x4000 && top < 16
    }
    /** "VP8X", "VP8 " or "VP8L". */
    function Last(): byte {
      match this case Canvas(_, _, _) => 0x58 case Key(_, _, _, _, _) => 0x20 case Packed(_, _, _) => 0x4C
    }
    function Body(): seq<byte>
      requires Legal()
    {
      match this
      case Canvas(flags, w, h) => flags + WriteLittle(w - 1, 3) + WriteLittle(h - 1, 3)
      case Key(tag, w, h, x, y) =>
        tag + [0x9D, 0x01, 0x2A] + WriteLittle(w + 0x4000 * x, 2) + WriteLittle(h + 0x4000 * y, 2)
      case Packed(w, h, top) => [0x2F] + WriteLittle(w - 1 + 0x4000 * (h - 1) + 0x1000_0000 * top, 4)
    }
  }

  lemma CanvasReads(b: seq<byte>, image: Image)
    requires image.Legal() && image.Canvas? && Sits(b, 20, image.Body())
    ensures Extended(b) == Some((image.width, image.height))
  {
    var w, h := WriteLittle(image.width - 1, 3), WriteLittle(image.height - 1, 3);
    SitsApart(b, 20, image.flags + w, h);
    SitsApart(b, 20, image.flags, w);
    assert Pow256(3) == 0x100_0000;
    LittleSits(b, 24, image.width - 1, 3);
    LittleSits(b, 27, image.height - 1, 3);
  }

  lemma KeyReads(b: seq<byte>, image: Image)
    requires image.Legal() && image.Key? && Sits(b, 20, image.Body())
    ensures Lossy(b) == Some((image.width, image.height))
  {
    var code: seq<byte> := [0x9D, 0x01, 0x2A];
    var w, h := image.width + 0x4000 * image.scaleX, image.height + 0x4000 * image.scaleY;
    SitsApart(b, 20, image.tag + code + WriteLittle(w, 2), WriteLittle(h, 2));
    SitsApart(b, 20, image.tag + code, WriteLittle(w, 2));
    SitsApart(b, 20, image.tag, code);
    assert b[23 + 0] == code[0] && b[23 + 1] == code[1] && b[23 + 2] == code[2];
    assert Pow256(2) == 0x1_0000;
    LittleSits(b, 26, w, 2);
    LittleSits(b, 28, h, 2);
    Unpack(image.width, image.scaleX, 0);
    Unpack(image.height, image.scaleY, 0);
  }

  lemma Unpack(w: nat, h: nat, top: nat)
    requires w < 0x4000 && h < 0x4000
    ensures var bits := w + 0x4000 * h + 0x1000_0000 * top; bits % 0x4000 == w && bits / 0x4000 % 0x4000 == h
  {
    var bits := w + 0x4000 * h + 0x1000_0000 * top;
    assert bits == 0x4000 * (h + 0x4000 * top) + w;
  }

  lemma PackedReads(b: seq<byte>, image: Image)
    requires image.Legal() && image.Packed? && Sits(b, 20, image.Body())
    ensures Lossless(b) == Some((image.width, image.height))
  {
    var bits := image.width - 1 + 0x4000 * (image.height - 1) + 0x1000_0000 * image.top;
    var signature: seq<byte> := [0x2F];
    SitsApart(b, 20, signature, WriteLittle(bits, 4));
    assert b[20 + 0] == signature[0];
    assert Pow256(4) == 0x1_0000_0000;
    LittleSits(b, 21, bits, 4);
    Unpack(image.width - 1, image.height - 1, image.top);
  }

  /** The fixed front of a file stands in `b`, followed by the image. */
  ghost predicate Holds(b: seq<byte>, image: Image)
    requires image.Legal()
  {
    && Sits(b, 0, [0x52, 0x49, 0x46, 0x46]) && Sits(b, 8, [0x57, 0x45, 0x42, 0x50])
    && Sits(b, 12, [0x56, 0x50, 0x38, image.Last()])
    && Sits(b, 20, image.Body())
  }

  lemma FrontReads(b: seq<byte>, image: Image)
    requires image.Legal() && Holds(b, image)
    ensures |b| >= 20 && Big(b, 0, 4) == RIFF && Big(b, 8, 12) == WEBP
    ensures Big(b, 12, 16) == match image case Canvas(_, _, _) => VP8X case Key(_, _, _, _, _) => VP8_ case _ => VP8L
  {
    CodeSits(b, 0, 0x52, 0x49, 0x46, 0x46);
    CodeSits(b, 8, 0x57, 0x45, 0x42, 0x50);
    CodeSits(b, 12, 0x56, 0x50, 0x38, image.Last());
  }

  /** Round trip: a file's declared size is read, whatever the chunk sizes, flags, scaling and
      reserved bits are. */
  lemma FileReads(b: seq<byte>, image: Image)
    requires image.Legal() && Holds(b, image)
    ensures Dimensions(b) == Some((image.width, image.height))
  {
    FrontReads(b, image);
    match image {
      case Canvas(_, _, _) => CanvasReads(b, image);
      case Key(_, _, _, _, _) => KeyReads(b, image);
      case Packed(_, _, _) => PackedReads(b, image);
    }
  }
}
