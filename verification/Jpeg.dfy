/** Declared dimensions of JPEG images (internal/convert/dimensions.go), by the marker grammar
    of ITU-T T.81 Annex B. */
module Jpeg {
  import opened Wrappers
  import opened Bytes

  const SOI: seq<byte> := [0xFF, 0xD8]

  type Size = (nat, nat)

  /** Markers without a length: TEM, RSTn and a stray SOI. */
  predicate Alone(m: byte) { m == 0x01 || 0xD0 <= m <= 0xD8 }
  predicate Stop(m: byte) { m == 0xD9 || m == 0xDA }
  predicate Sof(m: byte) { 0xC0 <= m <= 0xCF && m != 0xC4 && m != 0xC8 && m != 0xCC }

  /** The marker classes of T.81 table B.1: the thirteen frame headers, the markers that stand alone,
      and the two that end the search. */
  lemma MarkerClasses(m: byte)
    ensures Sof(m) <==>
              m in {0xC0, 0xC1, 0xC2, 0xC3, 0xC5, 0xC6, 0xC7, 0xC9, 0xCA, 0xCB, 0xCD, 0xCE, 0xCF}
    ensures Alone(m) <==> m in {0x01, 0xD0, 0xD1, 0xD2, 0xD3, 0xD4, 0xD5, 0xD6, 0xD7, 0xD8}
    ensures Stop(m) <==> m in {0xD9, 0xDA}
  {
  }

  /** The marker scan from `i`. */
  function Scan(b: seq<byte>, i: nat): Option<Size>
    decreases |b| - i
  {
    if i + 1 >= |b| then None
    else if b[i] != 0xFF || b[i + 1] == 0xFF then Scan(b, i + 1)
    else if Alone(b[i + 1]) then Scan(b, i + 2)
    else if Stop(b[i + 1]) || i + 4 > |b| then None
    else if Sof(b[i + 1]) then
      if i + 9 > |b| then None else Some((Big(b, i + 7, i + 9), Big(b, i + 5, i + 7)))
    else
      var segLen := Big(b, i + 2, i + 4);
      if segLen < 2 || i + 2 + segLen > |b| then None else Scan(b, i + 2 + segLen)
  }

  /** jpegDimensions: width and height of the first frame header. */
  function Dimensions(b: seq<byte>): Option<Size> {
    if |b| < 4 || b[0] != 0xFF || b[1] != 0xD8 then None else Scan(b, 2)
  }

  function Word(hi: byte, lo: byte): nat { 256 * (hi as nat) + lo as nat }

  lemma WordIsBig(b: seq<byte>, i: nat)
    requires i + 2 <= |b|
    ensures Big(b, i, i + 2) == Word(b[i], b[i + 1])
  {
    assert Fold(0, b, i, i + 1) == b[i];
  }

  method ReadDimensions(b: seq<byte>) returns (r: Option<Size>)
    ensures r == Dimensions(b)
  {
    if |b| < 4 || b[0] != 0xFF || b[1] != 0xD8 {
      return None;
    }
    var i := 2;
    while i + 1 < |b|
      invariant 2 <= i
      invariant Dimensions(b) == Scan(b, i)
      decreases |b| - i
    {
      if b[i] != 0xFF {
        i := i + 1;
        continue;
      }
      var marker := b[i + 1];
      if marker == 0xFF {
        i := i + 1;
        continue;
      }
      if marker == 0x01 || (marker >= 0xD0 && marker <= 0xD7) {
        i := i + 2;
        continue;
      }
      if marker == 0xD8 {
        i := i + 2;
        continue;
      }
      if marker == 0xD9 || marker == 0xDA {
        return None;
      }
      if i + 4 > |b| {
        return None;
      }
      WordIsBig(b, i + 2);
      var segLen := Word(b[i + 2], b[i + 3]);
      if marker >= 0xC0 && marker <= 0xCF && marker != 0xC4 && marker != 0xC8 && marker != 0xCC {
        if i + 9 > |b| {
          return None;
        }
        WordIsBig(b, i + 5);
        WordIsBig(b, i + 7);
        return Some((Word(b[i + 7], b[i + 8]), Word(b[i + 5], b[i + 6])));
      }
      if segLen < 2 || i + 2 + segLen > |b| {
        return None;
      }
      i := i + 2 + segLen;
    }
    return None;
  }

  // ----- a found frame stays found -----

  lemma {:induction false} ScanStable(b: seq<byte>, i: nat, more: seq<byte>)
    requires Scan(b, i).Some?
    ensures Scan(b + more, i) == Scan(b, i)
    decreases |b| - i
  {
    if b[i] != 0xFF || b[i + 1] == 0xFF {
      ScanStable(b, i + 1, more);
    } else if Alone(b[i + 1]) {
      ScanStable(b, i + 2, more);
    } else if Sof(b[i + 1]) {
      FoldPrefix(0, b, more, i + 5, i + 7);
      FoldPrefix(0, b, more, i + 7, i + 9);
    } else {
      FoldPrefix(0, b, more, i + 2, i + 4);
      ScanStable(b, i + 2 + Big(b, i + 2, i + 4), more);
    }
  }

  /** Bounded peek refines the unbounded parser. */
  lemma DimensionsStable(b: seq<byte>, more: seq<byte>)
    requires Dimensions(b).Some?
    ensures Dimensions(b + more) == Dimensions(b)
  {
    ScanStable(b, 2, more);
  }

  lemma {:induction false} ScanFits(b: seq<byte>, i: nat)
    requires Scan(b, i).Some?
    ensures Scan(b, i).value.0 < 0x1_0000_0000 && Scan(b, i).value.1 < 0x1_0000_0000
    decreases |b| - i
  {
    if b[i] != 0xFF || b[i + 1] == 0xFF {
      ScanFits(b, i + 1);
    } else if Alone(b[i + 1]) {
      ScanFits(b, i + 2);
    } else if Sof(b[i + 1]) {
      SmallBelow(b, i + 5, i + 7);
      SmallBelow(b, i + 7, i + 9);
    } else {
      ScanFits(b, i + 2 + Big(b, i + 2, i + 4));
    }
  }

  lemma DimensionsFit(b: seq<byte>)
    requires Dimensions(b).Some?
    ensures Dimensions(b).value.0 < 0x1_0000_0000 && Dimensions(b).value.1 < 0x1_0000_0000
  {
    ScanFits(b, 2);
  }

  // ----- reading what was written -----

  /** What may precede the frame header: stray bytes, fill bytes, markers alone, segments. */
  datatype Piece = Stray(b: byte) | Fill | Marker(m: byte) | Segment(m: byte, payload: seq<byte>) {
    predicate Legal() {
      match this
      case Stray(b) => b != 0xFF
      case Fill => true
      case Marker(m) => Alone(m)
      case Segment(m, payload) => m != 0xFF && !Alone(m) && !Stop(m) && !Sof(m) && |payload| + 2 < 0x10000
    }
    function Written(): seq<byte> {
      match this
      case Stray(b) => [b]
      case Fill => [0xFF]
      case Marker(m) => [0xFF, m]
      case Segment(m, payload) => [0xFF, m] + WriteBig(|payload| + 2, 2) + payload
    }
  }

  /** A fill byte is one that a marker's 0xFF follows. */
  predicate AllLegal(ps: seq<Piece>) {
    forall i :: 0 <= i < |ps| ==> ps[i].Legal() && (ps[i].Fill? && i + 1 < |ps| ==> !ps[i + 1].Stray?)
  }

  function Write(ps: seq<Piece>): seq<byte> {
    if ps == [] then [] else ps[0].Written() + Write(ps[1..])
  }

  function Frame(m: byte, precision: byte, segLen: nat, width: nat, height: nat): seq<byte> {
    [0xFF, m] + WriteBig(segLen, 2) + [precision] + WriteBig(height, 2) + WriteBig(width, 2)
  }

  lemma FrameReads(b: seq<byte>, i: nat, m: byte, precision: byte, segLen: nat, width: nat, height: nat)
    requires Sof(m) && width < 0x10000 && height < 0x10000 && Sits(b, i, Frame(m, precision, segLen, width, height))
    ensures Scan(b, i) == Some((width, height))
  {
    var head := [0xFF, m] + WriteBig(segLen, 2) + [precision];
    SitsApart(b, i, head + WriteBig(height, 2), WriteBig(width, 2));
    SitsApart(b, i, head, WriteBig(height, 2));
    assert b[i + 0] == head[0] && b[i + 1] == head[1];
    assert Pow256(2) == 0x10000;
    BigSits(b, i + 5, height, 2);
    BigSits(b, i + 7, width, 2);
  }

  lemma SegmentReads(b: seq<byte>, i: nat, m: byte, payload: seq<byte>)
    requires Segment(m, payload).Legal() && Sits(b, i, Segment(m, payload).Written())
    ensures Scan(b, i) == Scan(b, i + 4 + |payload|)
  {
    var head := [0xFF, m];
    var len := WriteBig(|payload| + 2, 2);
    SitsApart(b, i, head + len, payload);
    SitsApart(b, i, head, len);
    assert b[i + 0] == head[0] && b[i + 1] == head[1];
    assert Pow256(2) == 0x10000;
    BigSits(b, i + 2, |payload| + 2, 2);
  }

  lemma PieceReads(b: seq<byte>, i: nat, p: Piece)
    requires p.Legal() && Sits(b, i, p.Written()) && i + |p.Written()| < |b|
    requires p.Fill? ==> b[i + 1] == 0xFF
    ensures Scan(b, i) == Scan(b, i + |p.Written()|)
  {
    assert b[i + 0] == p.Written()[0];
    match p {
      case Marker(m) => assert b[i + 1] == p.Written()[1];
      case Segment(m, payload) => SegmentReads(b, i, m, payload);
      case _ =>
    }
  }

  lemma LegalRest(ps: seq<Piece>)
    requires AllLegal(ps) && ps != []
    ensures AllLegal(ps[1..]) && ps[0].Legal() && (ps[0].Fill? && |ps| > 1 ==> !ps[1].Stray?)
  {
    forall k | 0 <= k < |ps| - 1 ensures ps[1..][k] == ps[k + 1] {}
  }

  /** A piece that is not a stray byte starts with 0xFF. */
  lemma NextIsMarker(b: seq<byte>, i: nat, ps: seq<Piece>)
    requires ps != [] && !ps[0].Stray? && Sits(b, i, Write(ps))
    ensures b[i] == 0xFF
  {
    SitsApart(b, i, ps[0].Written(), Write(ps[1..]));
    assert b[i + 0] == ps[0].Written()[0];
  }

  /** The pieces after the first stand where it ends. */
  lemma RestSits(b: seq<byte>, i: nat, ps: seq<Piece>)
    requires ps != [] && Sits(b, i, Write(ps))
    ensures var next := i + |ps[0].Written()|;
            && Sits(b, i, ps[0].Written()) && Sits(b, next, Write(ps[1..]))
            && i + |Write(ps)| == next + |Write(ps[1..])|
  {
    SitsApart(b, i, ps[0].Written(), Write(ps[1..]));
  }

  lemma FillFollowed(b: seq<byte>, i: nat, ps: seq<Piece>, end: nat)
    requires ps != [] && ps[0].Fill? && AllLegal(ps) && Sits(b, i + 1, Write(ps[1..]))
    requires end == i + 1 + |Write(ps[1..])| && end < |b| && b[end] == 0xFF
    ensures b[i + 1] == 0xFF
  {
    if |ps| > 1 {
      LegalRest(ps);
      NextIsMarker(b, i + 1, ps[1..]);
    }
  }

  lemma {:induction false} PiecesRead(b: seq<byte>, i: nat, ps: seq<Piece>, end: nat)
    requires AllLegal(ps) && Sits(b, i, Write(ps)) && end == i + |Write(ps)| && end < |b| && b[end] == 0xFF
    ensures Scan(b, i) == Scan(b, end)
    decreases |ps|
  {
    if ps != [] {
      LegalRest(ps);
      RestSits(b, i, ps);
      if ps[0].Fill? {
        FillFollowed(b, i, ps, end);
      }
      PieceReads(b, i, ps[0]);
      PiecesRead(b, i + |ps[0].Written()|, ps[1..], end);
    }
  }

  lemma PartsSit(a: seq<byte>, p: seq<byte>, q: seq<byte>, rest: seq<byte>)
    ensures var b := a + p + q + rest;
            Sits(b, 0, a) && Sits(b, |a|, p) && Sits(b, |a| + |p|, q)
  {
  }

  /** A file as written: pieces, a frame header, and anything after. */
  datatype File = File(pieces: seq<Piece>, m: byte, precision: byte, segLen: nat, width: nat, height: nat,
                       rest: seq<byte>) {
    predicate Legal() { AllLegal(pieces) && Sof(m) && width < 0x10000 && height < 0x10000 }
    function Header(): seq<byte> { Frame(m, precision, segLen, width, height) }
    function Written(): seq<byte> { SOI + Write(pieces) + Header() + rest }
  }

  lemma FileReadsAt(b: seq<byte>, f: File)
    requires f.Legal() && Sits(b, 0, SOI) && Sits(b, 2, Write(f.pieces)) && Sits(b, 2 + |Write(f.pieces)|, f.Header())
    ensures Dimensions(b) == Some((f.width, f.height))
  {
    var end := 2 + |Write(f.pieces)|;
    assert b[end + 0] == f.Header()[0];
    assert b[0 + 0] == SOI[0] && b[0 + 1] == SOI[1];
    FrameReads(b, end, f.m, f.precision, f.segLen, f.width, f.height);
    PiecesRead(b, 2, f.pieces, end);
  }

  /** Round trip: whatever legal pieces precede the frame header, its width and height are read. */
  lemma FileReads(f: File)
    requires f.Legal()
    ensures Dimensions(f.Written()) == Some((f.width, f.height))
  {
    PartsSit(SOI, Write(f.pieces), f.Header(), f.rest);
    FileReadsAt(f.Written(), f);
  }

  // ----- every answer is such a file -----

  /** The piece that the scan steps over at `i`. */
  function PieceAt(b: seq<byte>, i: nat): Piece
    requires Scan(b, i).Some?
  {
    if b[i] != 0xFF then Stray(b[i])
    else if b[i + 1] == 0xFF then Fill
    else if Alone(b[i + 1]) || Sof(b[i + 1]) then Marker(b[i + 1])
    else Segment(b[i + 1], b[i + 4..i + 2 + Big(b, i + 2, i + 4)])
  }

  predicate FrameAt(b: seq<byte>, i: nat) { i + 1 < |b| && b[i] == 0xFF && Sof(b[i + 1]) }

  lemma ThreeSit(b: seq<byte>, i: nat, p: seq<byte>, q: seq<byte>, r: seq<byte>)
    requires Sits(b, i, p) && Sits(b, i + |p|, q) && Sits(b, i + |p| + |q|, r)
    ensures Sits(b, i, p + q + r) && |p + q + r| == |p| + |q| + |r|
  {
    SitsApart(b, i, p, q);
    SitsApart(b, i, p + q, r);
  }

  lemma SegmentSits(b: seq<byte>, i: nat, m: byte, payload: seq<byte>)
    requires Sits(b, i, [0xFF, m]) && i + 4 <= |b| && Big(b, i + 2, i + 4) == |payload| + 2 && Sits(b, i + 4, payload)
    ensures Sits(b, i, Segment(m, payload).Written()) && |Segment(m, payload).Written()| == 4 + |payload|
  {
    BigWrites(b, i + 2, 2);
    ThreeSit(b, i, [0xFF, m], WriteBig(|payload| + 2, 2), payload);
  }

  lemma PieceComesFrom(b: seq<byte>, i: nat)
    requires Scan(b, i).Some? && !FrameAt(b, i)
    ensures var p := PieceAt(b, i);
            var next := i + |p.Written()|;
            && p.Legal() && Sits(b, i, p.Written()) && Scan(b, next) == Scan(b, i)
            && (p.Stray? <==> b[i] != 0xFF) && (p.Fill? ==> b[next] == 0xFF)
  {
    if PieceAt(b, i).Segment? {
      WordIsBig(b, i + 2);
      assert Sits(b, i, [0xFF, b[i + 1]]);
      SegmentSits(b, i, b[i + 1], PieceAt(b, i).payload);
    }
  }

  lemma PrependSits(b: seq<byte>, i: nat, p: Piece, ps: seq<Piece>)
    requires Sits(b, i, p.Written()) && Sits(b, i + |p.Written()|, Write(ps))
    ensures Sits(b, i, Write([p] + ps)) && |Write([p] + ps)| == |p.Written()| + |Write(ps)|
  {
    assert ([p] + ps)[1..] == ps;
    SitsApart(b, i, p.Written(), Write(ps));
  }

  lemma PrependLegal(p: Piece, ps: seq<Piece>)
    requires p.Legal() && AllLegal(ps) && (p.Fill? && ps != [] ==> !ps[0].Stray?)
    ensures AllLegal([p] + ps)
  {
    forall k | 0 <= k < |ps| ensures ([p] + ps)[k + 1] == ps[k] {}
  }

  lemma {:induction false} PiecesComeFrom(b: seq<byte>, i: nat) returns (ps: seq<Piece>, end: nat)
    requires Scan(b, i).Some?
    ensures AllLegal(ps) && Sits(b, i, Write(ps)) && end == i + |Write(ps)|
    ensures FrameAt(b, end) && Scan(b, end) == Scan(b, i) && (ps != [] && ps[0].Stray? ==> b[i] != 0xFF)
    decreases |b| - i
  {
    if FrameAt(b, i) {
      ps, end := [], i;
    } else {
      var p := PieceAt(b, i);
      PieceComesFrom(b, i);
      var tail;
      tail, end := PiecesComeFrom(b, i + |p.Written()|);
      ps := [p] + tail;
      PrependSits(b, i, p, tail);
      PrependLegal(p, tail);
    }
  }

  lemma FrameComesFrom(b: seq<byte>, i: nat)
    requires Scan(b, i).Some? && FrameAt(b, i)
    ensures i + 9 <= |b| && Scan(b, i) == Some((Big(b, i + 7, i + 9), Big(b, i + 5, i + 7)))
    ensures Scan(b, i).value.0 < 0x10000 && Scan(b, i).value.1 < 0x10000
    ensures Sits(b, i, Frame(b[i + 1], b[i + 4], Big(b, i + 2, i + 4), Scan(b, i).value.0, Scan(b, i).value.1))
  {
    var head: seq<byte> := [0xFF, b[i + 1]];
    var len := WriteBig(Big(b, i + 2, i + 4), 2);
    var h, w := WriteBig(Big(b, i + 5, i + 7), 2), WriteBig(Big(b, i + 7, i + 9), 2);
    BigWrites(b, i + 2, 2);
    BigWrites(b, i + 5, 2);
    BigWrites(b, i + 7, 2);
    WordIsBig(b, i + 5);
    WordIsBig(b, i + 7);
    assert Sits(b, i, head) && Sits(b, i + 4, [b[i + 4]]);
    SitsApart(b, i, head, len);
    SitsApart(b, i, head + len, [b[i + 4]]);
    SitsApart(b, i, head + len + [b[i + 4]], h);
    SitsApart(b, i, head + len + [b[i + 4]] + h, w);
  }

  lemma PartsAreWhole(b: seq<byte>, p: seq<byte>, q: seq<byte>) returns (rest: seq<byte>)
    requires Sits(b, 0, SOI) && Sits(b, 2, p) && Sits(b, 2 + |p|, q)
    ensures b == SOI + p + q + rest
  {
    rest := b[2 + |p| + |q|..];
    SitsApart(b, 0, SOI, p);
    SitsApart(b, 0, SOI + p, q);
    SitsIsSlice(b, 0, SOI + p + q);
  }

  lemma AnswerComesFrom(b: seq<byte>) returns (f: File)
    requires Dimensions(b).Some?
    ensures f.Legal() && f.Written() == b && Dimensions(b) == Some((f.width, f.height))
  {
    var ps, end := PiecesComeFrom(b, 2);
    FrameComesFrom(b, end);
    var (w, h) := Scan(b, end).value;
    f := File(ps, b[end + 1], b[end + 4], Big(b, end + 2, end + 4), w, h, []);
    assert Sits(b, 0, SOI);
    var rest := PartsAreWhole(b, Write(ps), f.Header());
    f := f.(rest := rest);
  }

  /** Exactness: a size is answered if and only if the bytes are a legal file, followed by anything,
      whose first frame header declares it. */
  lemma AnsweredIffFrame(b: seq<byte>, size: Size)
    ensures Dimensions(b) == Some(size) <==>
              exists f: File :: f.Legal() && f.Written() == b && size == (f.width, f.height)
  {
    if Dimensions(b) == Some(size) {
      var f := AnswerComesFrom(b);
    }
    forall f: File | f.Legal() && f.Written() == b ensures Dimensions(b) == Some((f.width, f.height)) {
      FileReads(f);
    }
  }
}
